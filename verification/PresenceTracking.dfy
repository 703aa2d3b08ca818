/**
 What one instance tracks about presence (src/services/presence_service.ts): local sockets, observers with
 reference counts, its authoritative view of which stores are online, and the generation numbers that fence
 heartbeat answers. An event is one synchronous segment; what Redis answers is an argument of the event.
 `marks` is history: how often the tracking of a store has changed.
 */
module PresenceTracking {
  import opened Machine
  import opened Redis

  type Store = string
  type Socket = nat
  type Observer = nat

  datatype Presence = Presence(store: Store, online: bool)

  /** One store of a heartbeat: what was snapshotted when the pipeline was sent. */
  datatype Entry = Entry(store: Store, members: set<Socket>, generation: Option<nat>, marks: nat, observed: bool)

  datatype Tracker = Tracker(
    localSockets: map<Socket, Store>,
    byStore: map<Store, set<Socket>>,
    authoritative: set<Store>,
    observed: map<Observer, seq<Store>>,
    observers: map<Store, nat>,
    generation: map<Store, nat>,
    nextGeneration: nat,
    marks: map<Store, nat>,
    heartbeat: Option<seq<Entry>>,
    reported: seq<Presence>)

  const EMPTY: Tracker := Tracker(map[], map[], {}, map[], map[], map[], 0, map[], None, [])

  // ---------- the private helpers of the class ----------

  function Marks(t: Tracker, store: Store): nat { if store in t.marks then t.marks[store] else 0 }

  function Local(t: Tracker, store: Store): set<Socket> { if store in t.byStore then t.byStore[store] else {} }

  function GenerationOf(t: Tracker, store: Store): Option<nat>
  {
    if store in t.generation then Some(t.generation[store]) else None
  }

  function Mark(t: Tracker, store: Store): Tracker
  {
    t.(nextGeneration := t.nextGeneration + 1, generation := t.generation[store := t.nextGeneration + 1],
       marks := t.marks[store := Marks(t, store) + 1])
  }

  predicate IsTracked(t: Tracker, store: Store)
  {
    store in t.byStore || store in t.observers || store in t.authoritative
  }

  function Prune(t: Tracker, store: Store): Tracker
  {
    if IsTracked(t, store) then t else t.(generation := t.generation - {store})
  }

  function RemoveObserver(t: Tracker, store: Store): Tracker
  {
    if store !in t.observers || t.observers[store] == 0 then t
    else
      var marked := Mark(t, store);
      if t.observers[store] > 1 then marked.(observers := t.observers[store := t.observers[store] - 1])
      else
        Prune(marked.(observers := t.observers - {store},
                      authoritative := if store in t.byStore then t.authoritative else t.authoritative - {store}),
              store)
  }

  function AddObserver(t: Tracker, store: Store): Tracker
  {
    t.(observers := t.observers[store := (if store in t.observers then t.observers[store] else 0) + 1])
  }

  /** The first loop of `set_observed_presence`, and the loop of `clear_observer`. */
  function RemoveMissing(t: Tracker, previous: seq<Store>, next: seq<Store>): Tracker
  {
    if previous == [] then t
    else
      var last := previous[|previous| - 1];
      var before := RemoveMissing(t, previous[..|previous| - 1], next);
      if last in next then before else RemoveObserver(before, last)
  }

  /** Its second loop. */
  function AddNew(t: Tracker, next: seq<Store>, previous: seq<Store>): Tracker
  {
    if next == [] then t
    else
      var last := next[|next| - 1];
      var before := AddNew(t, next[..|next| - 1], previous);
      Mark(if last in previous then before else AddObserver(before, last), last)
  }

  /** The distinct non-empty store ids of a presence list, in order of first appearance. */
  function StoresOf(presence: seq<Presence>): (r: seq<Store>)
    ensures Distinct(r)
    ensures forall s :: s in r <==> s != "" && exists p :: p in presence && p.store == s
  {
    if presence == [] then []
    else
      var before := StoresOf(presence[..|presence| - 1]);
      var last := presence[|presence| - 1].store;
      assert presence == presence[..|presence| - 1] + [presence[|presence| - 1]];
      if last == "" || last in before then before else before + [last]
  }

  predicate Distinct(s: seq<Store>) { forall i, j :: 0 <= i < j < |s| ==> s[i] != s[j] }

  function OnlineStores(presence: seq<Presence>): set<Store>
  {
    set p | p in presence && p.online :: p.store
  }

  function Observed(t: Tracker, observer: Observer): seq<Store>
  {
    if observer in t.observed then t.observed[observer] else []
  }

  // ---------- events ----------

  datatype Event =
    | Register(store: Store, socket: Socket)
    | RegisterReply(store: Store)
    | Unregister(store: Store, socket: Socket)
    | UnregisterReply(store: Store, online: bool)
    | PruneLater(store: Store)                      // end of `unregister`
    | SetObserved(observer: Observer, presence: seq<Presence>)
    | ClearObserver(observer: Observer)
    | HeartbeatSend(order: seq<Store>)
    | HeartbeatApply(online: bool)                  // next entry, with Redis's answer for it
    | HeartbeatFails

  /** The stores a heartbeat covers. */
  function Covered(t: Tracker): set<Store>
  {
    t.authoritative + t.observers.Keys + t.localSockets.Values
  }

  function MembersOf(t: Tracker, store: Store): set<Socket>
  {
    set k | k in t.localSockets && t.localSockets[k] == store
  }

  function EntryFor(t: Tracker, store: Store): Entry
  {
    Entry(store, MembersOf(t, store), GenerationOf(t, store), Marks(t, store), store in t.observers)
  }

  /** The fence of a heartbeat: the generation is the one snapshotted, and the store is still tracked. */
  predicate Applies(t: Tracker, entry: Entry)
  {
    GenerationOf(t, entry.store) == entry.generation && IsTracked(t, entry.store)
  }

  predicate Changed(t: Tracker, entry: Entry, online: bool)
  {
    if entry.store !in t.authoritative then online && (entry.members != {} || entry.store in t.observers) else !online
  }

  function Viewed(t: Tracker, entry: Entry, online: bool): Tracker
  {
    t.(authoritative := if online then t.authoritative + {entry.store} else t.authoritative - {entry.store},
       reported := if Changed(t, entry, online) then t.reported + [Presence(entry.store, online)] else t.reported)
  }

  function ApplyEntry(t: Tracker, entry: Entry, online: bool): Tracker
  {
    Prune(if Applies(t, entry) then Viewed(t, entry, online) else t, entry.store)
  }

  /** A socket belongs to one store for life, and is only unregistered from it: the callers pass their own store. */
  predicate SocketOf(t: Tracker, socket: Socket, store: Store)
  {
    socket in t.localSockets ==> t.localSockets[socket] == store
  }

  function WithSocket(t: Tracker, store: Store, socket: Socket): Tracker
  {
    t.(byStore := t.byStore[store := Local(t, store) + {socket}], localSockets := t.localSockets[socket := store])
  }

  function WithoutSocket(t: Tracker, store: Store, socket: Socket): Tracker
  {
    var left := Local(t, store) - {socket};
    t.(byStore := if left == {} then t.byStore - {store} else t.byStore[store := left],
       localSockets := t.localSockets - {socket})
  }

  /** `set_observed_presence` up to the point where it records the new watch list. */
  function Rewatch(t: Tracker, observer: Observer, next: seq<Store>): Tracker
  {
    AddNew(RemoveMissing(t, Observed(t, observer), next), next, Observed(t, observer))
  }

  function Step(t: Tracker, e: Event): Option<Tracker>
  {
    match e
    case Register(store, socket) =>
      if !SocketOf(t, socket, store) then None
      else Some(Mark(WithSocket(t, store, socket), store))
    case RegisterReply(store) => Some(t.(authoritative := t.authoritative + {store}))
    case Unregister(store, socket) =>
      if !SocketOf(t, socket, store) then None
      else if socket !in t.localSockets then Some(t)
      else Some(Mark(WithoutSocket(t, store, socket), store))
    case UnregisterReply(store, online) =>
      Some(t.(authoritative := if online then t.authoritative + {store} else t.authoritative - {store}))
    case PruneLater(store) => Some(Prune(t, store))
    case SetObserved(observer, presence) =>
      var next := StoresOf(presence);
      var moved := Rewatch(t, observer, next);
      Some(moved.(observed := if next == [] then moved.observed - {observer} else moved.observed[observer := next],
                  authoritative := moved.authoritative + OnlineStores(presence)))
    case ClearObserver(observer) =>
      Some(RemoveMissing(t.(observed := t.observed - {observer}), Observed(t, observer), []))
    case HeartbeatSend(order) =>
      if t.heartbeat.Some? || order == [] || !Distinct(order) || (set s | s in order) != Covered(t) then None
      else Some(t.(heartbeat := Some(seq(|order|, i requires 0 <= i < |order| => EntryFor(t, order[i])))))
    case HeartbeatApply(online) =>
      if t.heartbeat.None? then None
      else if t.heartbeat.value == [] then Some(t.(heartbeat := None))
      else Some(ApplyEntry(t, t.heartbeat.value[0], online).(heartbeat := Some(t.heartbeat.value[1..])))
    case HeartbeatFails => if t.heartbeat.None? then None else Some(t.(heartbeat := None))
  }

  // ---------- observers are counted exactly ----------

  function Watchers(t: Tracker, store: Store): set<Observer>
  {
    set o | o in t.observed && store in t.observed[o]
  }

  function Count(t: Tracker, store: Store): nat { if store in t.observers then t.observers[store] else 0 }

  ghost predicate NoZeros(t: Tracker) { forall s :: s in t.observers ==> t.observers[s] > 0 }

  ghost predicate CountOk(t: Tracker, store: Store)
  {
    Count(t, store) == |Watchers(t, store)|
  }

  ghost predicate WatchListsOk(t: Tracker)
  {
    forall o :: o in t.observed ==> Distinct(t.observed[o]) && t.observed[o] != []
  }

  /** `observer_count_by_store` counts the observers watching each store, with no zero entries. */
  ghost predicate CountsOk(t: Tracker)
  {
    WatchListsOk(t) && NoZeros(t) && forall s :: CountOk(t, s)
  }

  lemma {:induction false} RemoveMissingCounts(t: Tracker, previous: seq<Store>, next: seq<Store>, store: Store)
    requires NoZeros(t) && Distinct(previous)
    ensures var r := RemoveMissing(t, previous, next);
            && NoZeros(r) && r.observed == t.observed
            && Count(r, store) == if store in previous && store !in next && Count(t, store) > 0
                                  then Count(t, store) - 1 else Count(t, store)
  {
    if previous != [] {
      var shorter := previous[..|previous| - 1];
      assert previous == shorter + [previous[|previous| - 1]];
      RemoveMissingCounts(t, shorter, next, store);
    }
  }

  lemma {:induction false} AddNewCounts(t: Tracker, next: seq<Store>, previous: seq<Store>, store: Store)
    requires NoZeros(t) && Distinct(next)
    ensures var r := AddNew(t, next, previous);
            && NoZeros(r) && r.observed == t.observed
            && Count(r, store) == Count(t, store) + if store in next && store !in previous then 1 else 0
  {
    if next != [] {
      var shorter := next[..|next| - 1];
      assert next == shorter + [next[|next| - 1]];
      AddNewCounts(t, shorter, previous, store);
    }
  }

  lemma {:induction false} FoldsFrame(t: Tracker, previous: seq<Store>, next: seq<Store>)
    requires NoZeros(t)
    ensures NoZeros(RemoveMissing(t, previous, next)) && RemoveMissing(t, previous, next).observed == t.observed
    ensures NoZeros(AddNew(t, previous, next)) && AddNew(t, previous, next).observed == t.observed
  {
    if previous != [] {
      FoldsFrame(t, previous[..|previous| - 1], next);
    }
  }

  ghost predicate OthersWatchTheSame(t: Tracker, t': Tracker, observer: Observer)
  {
    forall o :: o != observer ==> (o in t'.observed <==> o in t.observed) && Observed(t', o) == Observed(t, o)
  }

  lemma WatchersOfOthers(t: Tracker, t': Tracker, observer: Observer, store: Store)
    requires OthersWatchTheSame(t, t', observer)
    ensures Watchers(t', store) - {observer} == Watchers(t, store) - {observer}
  {
    forall o ensures o in Watchers(t', store) - {observer} <==> o in Watchers(t, store) - {observer} {
      assert o != observer ==> Observed(t', o) == Observed(t, o);
    }
  }

  lemma OneMore(all: set<Observer>, observer: Observer)
    ensures |all| == |all - {observer}| + if observer in all then 1 else 0
  {
    if observer in all {
      assert all == (all - {observer}) + {observer};
    } else {
      assert all - {observer} == all;
    }
  }

  /** Changing one observer's watch list adds or removes just that observer. */
  lemma OneWatcher(t: Tracker, t': Tracker, observer: Observer, store: Store)
    requires CountOk(t, store) && OthersWatchTheSame(t, t', observer)
    ensures |Watchers(t', store)| == |Watchers(t, store)|
              - (if store in Observed(t, observer) then 1 else 0) + if store in Observed(t', observer) then 1 else 0
    ensures store in Observed(t, observer) ==> Count(t, store) > 0
  {
    WatchersOfOthers(t, t', observer, store);
    OneMore(Watchers(t, store), observer);
    OneMore(Watchers(t', store), observer);
  }

  lemma SetObservedCount(t: Tracker, observer: Observer, presence: seq<Presence>, store: Store)
    requires CountsOk(t)
    ensures CountOk(Step(t, SetObserved(observer, presence)).value, store)
  {
    hide RemoveMissing, AddNew, StoresOf, Watchers;
    var previous, next := Observed(t, observer), StoresOf(presence);
    var removed := RemoveMissing(t, previous, next);
    var added := AddNew(removed, next, previous);
    var t' := Step(t, SetObserved(observer, presence)).value;
    FoldsFrame(t, previous, next);
    FoldsFrame(removed, next, previous);
    assert OthersWatchTheSame(t, t', observer) && Observed(t', observer) == next;
    assert CountOk(t, store) && t'.observers == added.observers;
    OneWatcher(t, t', observer, store);
    RemoveMissingCounts(t, previous, next, store);
    AddNewCounts(removed, next, previous, store);
  }

  lemma SetObservedCounts(t: Tracker, observer: Observer, presence: seq<Presence>)
    requires CountsOk(t)
    ensures CountsOk(Step(t, SetObserved(observer, presence)).value)
  {
    var previous, next := Observed(t, observer), StoresOf(presence);
    FoldsFrame(t, previous, next);
    FoldsFrame(RemoveMissing(t, previous, next), next, previous);
    hide RemoveMissing, AddNew, StoresOf, CountOk;
    forall s ensures CountOk(Step(t, SetObserved(observer, presence)).value, s) {
      SetObservedCount(t, observer, presence, s);
    }
  }

  lemma ClearObserverCounts(t: Tracker, observer: Observer)
    requires CountsOk(t)
    ensures CountsOk(Step(t, ClearObserver(observer)).value)
  {
    hide RemoveMissing, Watchers;
    var previous := Observed(t, observer);
    var hidden := t.(observed := t.observed - {observer});
    var t' := Step(t, ClearObserver(observer)).value;
    FoldsFrame(hidden, previous, []);
    assert OthersWatchTheSame(t, t', observer) && Observed(t', observer) == [];
    forall s ensures CountOk(t', s) {
      assert CountOk(t, s);
      OneWatcher(t, t', observer, s);
      RemoveMissingCounts(hidden, previous, [], s);
    }
  }

  lemma CountsStay(t: Tracker, e: Event)
    requires CountsOk(t) && Step(t, e).Some?
    ensures CountsOk(Step(t, e).value)
  {
    match e
    case SetObserved(observer, presence) => SetObservedCounts(t, observer, presence);
    case ClearObserver(observer) => ClearObserverCounts(t, observer);
    case _ =>
      OnlyObserversChangeCounts(t, e);
      CountsSame(t, Step(t, e).value);
  }

  lemma ApplyEntryFrame(t: Tracker, entry: Entry, online: bool)
    ensures var t' := ApplyEntry(t, entry, online);
            && t'.observed == t.observed && t'.observers == t.observers
            && t'.byStore == t.byStore && t'.localSockets == t.localSockets
  {
    hide IsTracked, Changed, Applies;
    assert Viewed(t, entry, online) == t.(authoritative := Viewed(t, entry, online).authoritative,
                                          reported := Viewed(t, entry, online).reported);
    hide Viewed;
    var viewed := if Applies(t, entry) then Viewed(t, entry, online) else t;
    assert Prune(viewed, entry.store) == viewed.(generation := Prune(viewed, entry.store).generation);
  }

  lemma ApplyFrame(t: Tracker, online: bool)
    requires Step(t, HeartbeatApply(online)).Some?
    ensures var t' := Step(t, HeartbeatApply(online)).value;
            && t'.observed == t.observed && t'.observers == t.observers
            && t'.byStore == t.byStore && t'.localSockets == t.localSockets
  {
    if t.heartbeat.value != [] {
      ApplyEntryFrame(t, t.heartbeat.value[0], online);
    }
    hide ApplyEntry;
  }

  lemma OnlyObserversChangeCounts(t: Tracker, e: Event)
    requires Step(t, e).Some? && !e.SetObserved? && !e.ClearObserver?
    ensures Step(t, e).value.observed == t.observed && Step(t, e).value.observers == t.observers
  {
    hide ApplyEntry, Covered;
    match e
    case Register(_, _) =>
    case RegisterReply(_) =>
    case Unregister(_, _) =>
    case UnregisterReply(_, _) =>
    case PruneLater(_) =>
    case HeartbeatSend(_) =>
    case HeartbeatApply(online) => ApplyFrame(t, online);
    case HeartbeatFails =>
  }

  lemma CountsSame(t: Tracker, t': Tracker)
    requires CountsOk(t) && t'.observed == t.observed && t'.observers == t.observers
    ensures CountsOk(t')
  {
    forall s ensures CountOk(t', s) {
      assert CountOk(t, s) && Watchers(t', s) == Watchers(t, s);
    }
  }

  /** Observer counts are exact in every run. */
  lemma ObserversAreCounted(es: seq<Event>)
    requires Run(Step, EMPTY, es).Some?
    ensures var t := Run(Step, EMPTY, es).value;
            forall s :: (s in t.observers <==> exists o :: o in t.observed && s in t.observed[o]) &&
                        (s in t.observers ==> t.observers[s] == |Watchers(t, s)|)
  {
    AtEnds(Step, EMPTY, es);
    forall s ensures Watchers(EMPTY, s) == {} {
    }
    forall t, e | CountsOk(t) && Step(t, e).Some? ensures CountsOk(Step(t, e).value) {
      CountsStay(t, e);
    }
    Always(Step, CountsOk, EMPTY, es, 0, |es|);
    var t := Run(Step, EMPTY, es).value;
    forall s ensures (s in t.observers <==> exists o :: o in t.observed && s in t.observed[o]) &&
                     (s in t.observers ==> t.observers[s] == |Watchers(t, s)|)
    {
      assert CountOk(t, s);
      if s in t.observers {
        var o :| o in Watchers(t, s);
      } else {
        assert Watchers(t, s) == {};
        assert forall o :: o in t.observed && s in t.observed[o] ==> o in Watchers(t, s);
      }
    }
  }

  // ---------- the heartbeat fence ----------

  /** The tracking of `store` is as it was: same local sockets, same observed-ness, no change in between. */
  ghost predicate Untouched(t: Tracker, t': Tracker, store: Store)
  {
    && Local(t', store) == Local(t, store) && (store in t'.observers <==> store in t.observers)
    && Marks(t', store) == Marks(t, store)
    && (store in t'.generation ==> GenerationOf(t', store) == GenerationOf(t, store))
  }

  /** Its tracking changed, and if it has a generation that one is new. */
  ghost predicate Touched(t: Tracker, t': Tracker, store: Store)
  {
    Marks(t', store) > Marks(t, store) && (store in t'.generation ==> t'.generation[store] > t.nextGeneration)
  }

  ghost predicate Evolves(t: Tracker, t': Tracker)
  {
    t.nextGeneration <= t'.nextGeneration && forall s :: Untouched(t, t', s) || Touched(t, t', s)
  }

  lemma EvolvesTransitive(a: Tracker, b: Tracker, c: Tracker)
    requires Evolves(a, b) && Evolves(b, c)
    ensures Evolves(a, c)
  {
    forall s ensures Untouched(a, c, s) || Touched(a, c, s) {
      assert Untouched(a, b, s) || Touched(a, b, s);
      assert Untouched(b, c, s) || Touched(b, c, s);
    }
  }

  lemma PruneEvolves(t: Tracker, store: Store)
    ensures Evolves(t, Prune(t, store))
  {
  }

  lemma EvolvesSelf(t: Tracker)
    ensures Evolves(t, t)
  {
    assert forall s :: Untouched(t, t, s);
  }

  lemma MarkEvolves(t: Tracker, t': Tracker, store: Store)
    requires t'.nextGeneration == t.nextGeneration && t'.generation == t.generation && t'.marks == t.marks
    requires forall s :: s != store ==> Local(t', s) == Local(t, s) && (s in t'.observers <==> s in t.observers)
    ensures Evolves(t, Mark(t', store))
  {
    forall s ensures Untouched(t, Mark(t', store), s) || Touched(t, Mark(t', store), s) {
      if s != store { assert Untouched(t, Mark(t', store), s); }
    }
  }

  lemma RemoveObserverIsMarkAndPrune(t: Tracker, store: Store)
    requires store in t.observers && t.observers[store] > 0
    ensures var dropped := RemoveObserver(t, store);
            var unmarked := t.(observers := dropped.observers, authoritative := dropped.authoritative);
            dropped == Prune(Mark(unmarked, store), store)
  {
    var unmarked := t.(observers := RemoveObserver(t, store).observers, authoritative := RemoveObserver(t, store).authoritative);
    assert Mark(unmarked, store) == Mark(t, store).(observers := unmarked.observers, authoritative := unmarked.authoritative);
    hide Mark;
  }

  lemma RemoveObserverEvolves(t: Tracker, store: Store)
    requires NoZeros(t)
    ensures Evolves(t, RemoveObserver(t, store)) && NoZeros(RemoveObserver(t, store))
  {
    EvolvesSelf(t);
    if store in t.observers {
      RemoveObserverIsMarkAndPrune(t, store);
      var dropped := RemoveObserver(t, store);
      var unmarked := t.(observers := dropped.observers, authoritative := dropped.authoritative);
      assert forall s :: s in dropped.observers ==> dropped.observers[s] > 0;
      MarkEvolves(t, unmarked, store);
      hide RemoveObserver, Mark, Prune;
      PruneEvolves(Mark(unmarked, store), store);
      EvolvesTransitive(t, Mark(unmarked, store), dropped);
    }
  }

  lemma {:induction false} RemoveMissingEvolves(t: Tracker, previous: seq<Store>, next: seq<Store>)
    requires NoZeros(t)
    ensures Evolves(t, RemoveMissing(t, previous, next)) && NoZeros(RemoveMissing(t, previous, next))
  {
    if previous == [] {
      assert forall s :: Untouched(t, t, s);
    } else {
      var before := RemoveMissing(t, previous[..|previous| - 1], next);
      RemoveMissingEvolves(t, previous[..|previous| - 1], next);
      RemoveObserverEvolves(before, previous[|previous| - 1]);
      if previous[|previous| - 1] !in next {
        EvolvesTransitive(t, before, RemoveMissing(t, previous, next));
      }
    }
  }

  lemma {:induction false} AddNewEvolves(t: Tracker, next: seq<Store>, previous: seq<Store>)
    ensures Evolves(t, AddNew(t, next, previous))
  {
    if next == [] {
      assert forall s :: Untouched(t, t, s);
    } else {
      var last := next[|next| - 1];
      var before := AddNew(t, next[..|next| - 1], previous);
      AddNewEvolves(t, next[..|next| - 1], previous);
      MarkEvolves(before, if last in previous then before else AddObserver(before, last), last);
      EvolvesTransitive(t, before, AddNew(t, next, previous));
    }
  }

  lemma RewatchEvolves(t: Tracker, observer: Observer, next: seq<Store>)
    requires NoZeros(t)
    ensures Evolves(t, Rewatch(t, observer, next))
  {
    var removed := RemoveMissing(t, Observed(t, observer), next);
    RemoveMissingEvolves(t, Observed(t, observer), next);
    AddNewEvolves(removed, next, Observed(t, observer));
    EvolvesTransitive(t, removed, Rewatch(t, observer, next));
  }

  lemma EvolvesTo(t: Tracker, a: Tracker, b: Tracker)
    requires Evolves(t, a) && a.byStore == b.byStore && a.observers == b.observers
    requires a.generation == b.generation && a.marks == b.marks && a.nextGeneration == b.nextGeneration
    ensures Evolves(t, b)
  {
    forall s ensures Untouched(t, b, s) || Touched(t, b, s) {
      assert Untouched(t, a, s) || Touched(t, a, s);
    }
  }

  lemma StepEvolves(t: Tracker, e: Event)
    requires NoZeros(t) && Step(t, e).Some?
    ensures Evolves(t, Step(t, e).value)
  {
    hide Evolves, RemoveMissing, Rewatch;
    var t' := Step(t, e).value;
    EvolvesSelf(t);
    match e
    case Register(store, socket) => MarkEvolves(t, WithSocket(t, store, socket), store);
    case Unregister(store, socket) =>
      if socket in t.localSockets { MarkEvolves(t, WithoutSocket(t, store, socket), store); }
    case PruneLater(store) => PruneEvolves(t, store);
    case SetObserved(observer, presence) =>
      RewatchEvolves(t, observer, StoresOf(presence));
      EvolvesTo(t, Rewatch(t, observer, StoresOf(presence)), t');
    case ClearObserver(observer) =>
      var hidden := t.(observed := t.observed - {observer});
      EvolvesTo(t, t, hidden);
      RemoveMissingEvolves(hidden, Observed(t, observer), []);
      EvolvesTransitive(t, hidden, t');
    case HeartbeatApply(online) => ApplyEvolves(t, online);
    case RegisterReply(_) => EvolvesTo(t, t, t');
    case UnregisterReply(_, _) => EvolvesTo(t, t, t');
    case HeartbeatSend(_) => EvolvesTo(t, t, t');
    case HeartbeatFails => EvolvesTo(t, t, t');
  }

  lemma ApplyEvolves(t: Tracker, online: bool)
    requires Step(t, HeartbeatApply(online)).Some?
    ensures Evolves(t, Step(t, HeartbeatApply(online)).value)
  {
    hide Evolves;
    var t' := Step(t, HeartbeatApply(online)).value;
    EvolvesSelf(t);
    if t.heartbeat.value != [] {
      var entry := t.heartbeat.value[0];
      var viewed := if Applies(t, entry) then Viewed(t, entry, online) else t;
      EvolvesTo(t, t, viewed);
      PruneEvolves(viewed, entry.store);
      EvolvesTransitive(t, viewed, Prune(viewed, entry.store));
      EvolvesTo(t, Prune(viewed, entry.store), t');
    } else {
      EvolvesTo(t, t, t');
    }
  }

  /**
   What a pending entry remembers is still true of the store as long as its generation number is current, and the number
   is current as long as nothing has changed and it has not been dropped.
   */
  ghost predicate EntryOk(t: Tracker, entry: Entry)
  {
    && entry.marks <= Marks(t, entry.store)
    && (entry.marks == Marks(t, entry.store) && entry.store in t.generation ==>
          GenerationOf(t, entry.store) == entry.generation)
    && (entry.generation.Some? ==>
          && entry.generation.value <= t.nextGeneration
          && (GenerationOf(t, entry.store) == entry.generation ==>
                Marks(t, entry.store) == entry.marks && Local(t, entry.store) == entry.members &&
                (entry.store in t.observers <==> entry.observed)))
  }

  lemma EntryStays(t: Tracker, t': Tracker, entry: Entry)
    requires EntryOk(t, entry) && Evolves(t, t')
    ensures EntryOk(t', entry)
  {
    assert Untouched(t, t', entry.store) || Touched(t, t', entry.store);
  }

  /** Both views of the local sockets agree, and a store with local sockets or observers has a generation. */
  ghost predicate SocketsOk(t: Tracker)
  {
    && (forall s :: s in t.byStore ==> t.byStore[s] != {})
    && (forall s :: Local(t, s) == MembersOf(t, s))
  }

  ghost predicate GenerationsOk(t: Tracker)
  {
    && (forall s :: s in t.generation ==> t.generation[s] <= t.nextGeneration)
    && (forall s :: s in t.byStore || s in t.observers ==> s in t.generation)
  }

  ghost predicate PendingOk(t: Tracker)
  {
    t.heartbeat.Some? ==> forall entry :: entry in t.heartbeat.value ==> EntryOk(t, entry)
  }

  ghost predicate Inv(t: Tracker)
  {
    CountsOk(t) && SocketsOk(t) && GenerationsOk(t) && PendingOk(t)
  }

  lemma RemoveObserverKeepsGenerations(t: Tracker, store: Store)
    requires GenerationsOk(t)
    ensures GenerationsOk(RemoveObserver(t, store))
  {
    if store in t.observers && t.observers[store] == 1 {
      var marked := t.(nextGeneration := t.nextGeneration + 1, generation := t.generation[store := t.nextGeneration + 1]);
      assert GenerationsOk(marked.(observers := t.observers - {store}));
    }
  }

  lemma AddObserverKeepsGenerations(t: Tracker, store: Store, added: bool)
    requires GenerationsOk(t)
    ensures GenerationsOk(Mark(if added then AddObserver(t, store) else t, store))
  {
  }

  lemma {:induction false} FoldsKeepGenerations(t: Tracker, previous: seq<Store>, next: seq<Store>)
    requires GenerationsOk(t)
    ensures GenerationsOk(RemoveMissing(t, previous, next)) && GenerationsOk(AddNew(t, previous, next))
  {
    if previous != [] {
      var shorter, last := previous[..|previous| - 1], previous[|previous| - 1];
      FoldsKeepGenerations(t, shorter, next);
      RemoveObserverKeepsGenerations(RemoveMissing(t, shorter, next), last);
      AddObserverKeepsGenerations(AddNew(t, shorter, next), last, last !in next);
      hide GenerationsOk;
    }
  }

  lemma {:induction false} FoldsKeepSockets(t: Tracker, previous: seq<Store>, next: seq<Store>)
    ensures var r := RemoveMissing(t, previous, next);
            r.byStore == t.byStore && r.localSockets == t.localSockets && r.heartbeat == t.heartbeat
    ensures var r := AddNew(t, previous, next);
            r.byStore == t.byStore && r.localSockets == t.localSockets && r.heartbeat == t.heartbeat
  {
    if previous != [] {
      FoldsKeepSockets(t, previous[..|previous| - 1], next);
    }
  }

  lemma RewatchKeeps(t: Tracker, observer: Observer, next: seq<Store>)
    ensures GenerationsOk(t) ==> GenerationsOk(Rewatch(t, observer, next))
    ensures var r := Rewatch(t, observer, next);
            r.byStore == t.byStore && r.localSockets == t.localSockets && r.heartbeat == t.heartbeat
  {
    hide GenerationsOk, RemoveMissing, AddNew;
    var removed := RemoveMissing(t, Observed(t, observer), next);
    FoldsKeepSockets(t, Observed(t, observer), next);
    FoldsKeepSockets(removed, next, Observed(t, observer));
    if GenerationsOk(t) {
      FoldsKeepGenerations(t, Observed(t, observer), next);
      FoldsKeepGenerations(removed, next, Observed(t, observer));
    }
  }

  lemma GenerationsSame(t: Tracker, t': Tracker)
    requires GenerationsOk(t) && t'.byStore == t.byStore && t'.observers == t.observers
    requires t'.generation == t.generation && t'.nextGeneration == t.nextGeneration
    ensures GenerationsOk(t')
  {
  }

  lemma PruneKeepsGenerations(t: Tracker, store: Store)
    requires GenerationsOk(t)
    ensures GenerationsOk(Prune(t, store))
  {
  }

  lemma GenerationsStay(t: Tracker, e: Event)
    requires GenerationsOk(t) && Step(t, e).Some?
    ensures GenerationsOk(Step(t, e).value)
  {
    match e
    case SetObserved(observer, presence) => SetObservedKeepsGenerations(t, observer, presence);
    case ClearObserver(observer) =>
      FoldsKeepGenerations(t.(observed := t.observed - {observer}), Observed(t, observer), []);
    case Register(store, socket) => MarkKeepsGenerations(t, WithSocket(t, store, socket), store);
    case Unregister(store, socket) =>
      if socket in t.localSockets { MarkKeepsGenerations(t, WithoutSocket(t, store, socket), store); }
    case PruneLater(store) => PruneKeepsGenerations(t, store);
    case HeartbeatApply(online) => ApplyKeepsGenerations(t, online);
    case _ => GenerationsSame(t, Step(t, e).value);
  }

  lemma SetObservedKeepsGenerations(t: Tracker, observer: Observer, presence: seq<Presence>)
    requires GenerationsOk(t)
    ensures GenerationsOk(Step(t, SetObserved(observer, presence)).value)
  {
    RewatchKeeps(t, observer, StoresOf(presence));
    hide Rewatch, StoresOf, OnlineStores;
    GenerationsSame(Rewatch(t, observer, StoresOf(presence)), Step(t, SetObserved(observer, presence)).value);
  }

  lemma ApplyKeepsGenerations(t: Tracker, online: bool)
    requires GenerationsOk(t) && t.heartbeat.Some?
    ensures GenerationsOk(Step(t, HeartbeatApply(online)).value)
  {
    if t.heartbeat.value != [] {
      var entry := t.heartbeat.value[0];
      var viewed := if Applies(t, entry) then Viewed(t, entry, online) else t;
      GenerationsSame(t, viewed);
      PruneKeepsGenerations(viewed, entry.store);
      hide Applies, Viewed;
      GenerationsSame(Prune(viewed, entry.store), Step(t, HeartbeatApply(online)).value);
    }
  }

  lemma MarkKeepsGenerations(t: Tracker, t': Tracker, store: Store)
    requires GenerationsOk(t) && t'.nextGeneration == t.nextGeneration && t'.generation == t.generation
    requires t'.observers == t.observers && t'.byStore.Keys <= t.byStore.Keys + {store}
    ensures GenerationsOk(Mark(t', store))
  {
  }

  lemma OnlySocketEventsChangeSockets(t: Tracker, e: Event)
    requires Step(t, e).Some? && !e.Register? && !e.Unregister?
    ensures Step(t, e).value.byStore == t.byStore && Step(t, e).value.localSockets == t.localSockets
  {
    hide ApplyEntry, Covered, Rewatch;
    match e
    case SetObserved(observer, presence) => RewatchKeeps(t, observer, StoresOf(presence));
    case ClearObserver(observer) =>
      FoldsKeepSockets(t.(observed := t.observed - {observer}), Observed(t, observer), []);
    case RegisterReply(_) =>
    case UnregisterReply(_, _) =>
    case PruneLater(_) =>
    case HeartbeatSend(_) =>
    case HeartbeatApply(online) => ApplyFrame(t, online);
    case HeartbeatFails =>
  }

  lemma SocketsStay(t: Tracker, e: Event)
    requires SocketsOk(t) && Step(t, e).Some?
    ensures SocketsOk(Step(t, e).value)
  {
    match e
    case Register(store, socket) => WithSocketOk(t, Step(t, e).value, store, socket);
    case Unregister(store, socket) =>
      if socket in t.localSockets { WithoutSocketOk(t, Step(t, e).value, store, socket); }
    case _ =>
      OnlySocketEventsChangeSockets(t, e);
      SocketsSame(t, Step(t, e).value);
  }

  lemma WithSocketOk(t: Tracker, t': Tracker, store: Store, socket: Socket)
    requires SocketsOk(t) && SocketOf(t, socket, store)
    requires t'.byStore == WithSocket(t, store, socket).byStore && t'.localSockets == WithSocket(t, store, socket).localSockets
    ensures SocketsOk(t')
  {
    forall s ensures Local(t', s) == MembersOf(t', s) {
      assert Local(t, s) == MembersOf(t, s);
      assert MembersOf(t', s) == if s == store then MembersOf(t, s) + {socket} else MembersOf(t, s);
    }
  }

  lemma WithoutSocketOk(t: Tracker, t': Tracker, store: Store, socket: Socket)
    requires SocketsOk(t) && SocketOf(t, socket, store) && socket in t.localSockets
    requires t'.byStore == WithoutSocket(t, store, socket).byStore
    requires t'.localSockets == WithoutSocket(t, store, socket).localSockets
    ensures SocketsOk(t')
  {
    forall s ensures Local(t', s) == MembersOf(t', s) {
      assert Local(t, s) == MembersOf(t, s);
      assert MembersOf(t', s) == if s == store then MembersOf(t, s) - {socket} else MembersOf(t, s);
    }
  }

  lemma SocketsSame(t: Tracker, t': Tracker)
    requires SocketsOk(t) && t'.byStore == t.byStore && t'.localSockets == t.localSockets
    ensures SocketsOk(t')
  {
    forall s ensures Local(t', s) == MembersOf(t', s) {
      assert Local(t, s) == MembersOf(t, s) == MembersOf(t', s);
    }
  }

  lemma PendingStays(t: Tracker, e: Event)
    requires Inv(t) && Step(t, e).Some?
    ensures PendingOk(Step(t, e).value)
  {
    var t' := Step(t, e).value;
    StepEvolves(t, e);
    if t'.heartbeat.Some? {
      forall entry | entry in t'.heartbeat.value ensures EntryOk(t', entry) {
        if e.HeartbeatSend? {
          assert Local(t, entry.store) == MembersOf(t, entry.store);
        } else {
          PendingEntriesArePassedOn(t, e, entry);
          EntryStays(t, t', entry);
        }
      }
    }
  }

  lemma PendingEntriesArePassedOn(t: Tracker, e: Event, entry: Entry)
    requires Step(t, e).Some? && !e.HeartbeatSend? && Step(t, e).value.heartbeat.Some?
    requires entry in Step(t, e).value.heartbeat.value
    ensures t.heartbeat.Some? && entry in t.heartbeat.value
  {
    match e
    case SetObserved(observer, presence) => RewatchKeeps(t, observer, StoresOf(presence));
    case ClearObserver(observer) =>
      FoldsKeepSockets(t.(observed := t.observed - {observer}), Observed(t, observer), []);
    case Register(_, _) =>
    case RegisterReply(_) =>
    case Unregister(_, _) =>
    case UnregisterReply(_, _) =>
    case PruneLater(_) =>
    case HeartbeatApply(_) =>
    case HeartbeatFails =>
  }

  lemma StepKeepsInv(t: Tracker, e: Event)
    requires Inv(t) && Step(t, e).Some?
    ensures Inv(Step(t, e).value)
  {
    CountsStay(t, e);
    SocketsStay(t, e);
    GenerationsStay(t, e);
    PendingStays(t, e);
  }

  lemma RunKeepsInv(es: seq<Event>, n: nat)
    requires Run(Step, EMPTY, es).Some? && n <= |es|
    ensures Inv(At(Step, EMPTY, es, n))
  {
    AtEnds(Step, EMPTY, es);
    assert Inv(EMPTY) by {
      assert forall s :: Watchers(EMPTY, s) == {} && MembersOf(EMPTY, s) == {};
    }
    forall t, e | Inv(t) && Step(t, e).Some? ensures Inv(Step(t, e).value) {
      StepKeepsInv(t, e);
    }
    Always(Step, Inv, EMPTY, es, 0, n);
  }

  // ---------- what observing changes ----------

  lemma RemoveObserverEffect(t: Tracker, last: Store, store: Store)
    requires NoZeros(t)
    ensures var r := RemoveObserver(t, last);
            var dropped := store == last && Count(t, store) > 0;
            && (store in r.authoritative <==>
                  store in t.authoritative && !(dropped && Count(t, store) == 1 && store !in t.byStore))
            && Marks(r, store) == Marks(t, store) + (if dropped then 1 else 0)
            && r.reported == t.reported && r.byStore == t.byStore
  {
    if store in t.observers && store == last {
      assert Marks(Mark(t, last), store) == Marks(t, store) + 1;
      assert Mark(t, last).authoritative == t.authoritative;
      hide Mark, IsTracked;
    } else {
      assert Marks(Mark(t, last), store) == Marks(t, store) + (if store == last then 1 else 0);
      hide IsTracked;
    }
  }

  lemma {:induction false} RemoveMissingEffect(t: Tracker, previous: seq<Store>, next: seq<Store>, store: Store)
    requires NoZeros(t) && Distinct(previous)
    ensures var r := RemoveMissing(t, previous, next);
            var dropped := store in previous && store !in next && Count(t, store) > 0;
            && (store in r.authoritative <==>
                  store in t.authoritative && !(dropped && Count(t, store) == 1 && store !in t.byStore))
            && Marks(r, store) == Marks(t, store) + (if dropped then 1 else 0)
            && r.reported == t.reported && r.byStore == t.byStore
  {
    if previous != [] {
      var shorter, last := previous[..|previous| - 1], previous[|previous| - 1];
      assert previous == shorter + [last];
      RemoveMissingEffect(t, shorter, next, store);
      RemoveMissingCounts(t, shorter, next, store);
      RemoveObserverEffect(RemoveMissing(t, shorter, next), last, store);
      hide RemoveObserver, Marks, Count;
    }
  }

  lemma {:induction false} AddNewEffect(t: Tracker, next: seq<Store>, previous: seq<Store>, store: Store)
    requires Distinct(next)
    ensures var r := AddNew(t, next, previous);
            && r.authoritative == t.authoritative && r.reported == t.reported
            && Marks(r, store) == Marks(t, store) + (if store in next then 1 else 0)
  {
    if next != [] {
      var shorter := next[..|next| - 1];
      assert next == shorter + [next[|next| - 1]];
      AddNewEffect(t, shorter, previous, store);
    }
  }

  ghost predicate Watches(t: Tracker, o: Observer, store: Store) { o in t.observed && store in t.observed[o] }

  /** Somebody lists `store`, online or not. */
  ghost predicate Listed(presence: seq<Presence>, store: Store)
  {
    store != "" && exists p :: p in presence && p.store == store
  }

  /**
   `observer` now watches exactly the stores of `presence`, and everybody else what they did. The view has every store that is
   reported online, and has lost those that nobody watches any more and that have no socket here. The tracking of a store
   has changed, once, if the observer watches it or did.
   */
  ghost predicate Rewatched(t: Tracker, t': Tracker, observer: Observer, presence: seq<Presence>, store: Store)
  {
    && (forall o :: Watches(t', o, store) <==> if o == observer then Listed(presence, store) else Watches(t, o, store))
    && (store in t'.authoritative <==>
          || (exists p :: p in presence && p.online && p.store == store)
          || (store in t.authoritative &&
              !(Watches(t, observer, store) && (forall o :: !Watches(t', o, store)) && store !in t.localSockets.Values)))
    && Marks(t', store) ==
         Marks(t, store) + (if Watches(t, observer, store) || Listed(presence, store) then 1 else 0)
    && t'.reported == t.reported && t'.localSockets == t.localSockets && t'.heartbeat == t.heartbeat
  }

  lemma RewatchEffect(t: Tracker, observer: Observer, presence: seq<Presence>, store: Store)
    requires Inv(t)
    ensures var t' := Step(t, SetObserved(observer, presence)).value;
            var dropped := Watches(t, observer, store) && !Listed(presence, store);
            && (store in t'.authoritative <==>
                  || (exists p :: p in presence && p.online && p.store == store)
                  || (store in t.authoritative && !(dropped && Count(t, store) == 1 && store !in t.byStore)))
            && Marks(t', store) ==
                 Marks(t, store) + (if Watches(t, observer, store) || Listed(presence, store) then 1 else 0)
            && t'.reported == t.reported
  {
    var previous, next := Observed(t, observer), StoresOf(presence);
    assert CountOk(t, store);
    assert Watches(t, observer, store) ==> observer in Watchers(t, store);
    hide RemoveMissing, AddNew, StoresOf, Watchers, CountOk;
    var removed := RemoveMissing(t, previous, next);
    FoldsFrame(t, previous, next);
    RemoveMissingEffect(t, previous, next, store);
    AddNewEffect(removed, next, previous, store);
    assert store in next <==> Listed(presence, store);
    assert store in previous <==> Watches(t, observer, store);
  }

  /** The observers of a store whose only watcher lets go of it are none. */
  lemma LastWatcher(t: Tracker, t': Tracker, observer: Observer, store: Store)
    requires CountOk(t, store) && NoZeros(t) && Watches(t, observer, store) && !Watches(t', observer, store)
    requires forall o :: o != observer ==> (Watches(t', o, store) <==> Watches(t, o, store))
    ensures store in t.observers
    ensures t.observers[store] == 1 <==> forall o :: !Watches(t', o, store)
  {
    assert observer in Watchers(t, store);
    OneMore(Watchers(t, store), observer);
    var others := Watchers(t, store) - {observer};
    if o :| o in others {
      assert Watches(t', o, store);
    } else {
      assert others == {};
      forall o ensures !Watches(t', o, store) {
        assert o != observer && Watches(t', o, store) ==> o in others;
      }
    }
  }

  /** What `set_observed_presence` does, store by store, in every reachable state. */
  lemma ObservingIsExact(es: seq<Event>, t: Tracker, observer: Observer, presence: seq<Presence>, store: Store)
    requires Run(Step, EMPTY, es) == Some(t)
    ensures Step(t, SetObserved(observer, presence)).Some?
    ensures Rewatched(t, Step(t, SetObserved(observer, presence)).value, observer, presence, store)
  {
    RunKeepsInv(es, |es|);
    AtEnds(Step, EMPTY, es);
    hide Run;
    var t' := Step(t, SetObserved(observer, presence)).value;
    NewWatchList(t, observer, presence, store);
    RewatchEffect(t, observer, presence, store);
    RewatchKeeps(t, observer, StoresOf(presence));
    assert CountOk(t, store) && Local(t, store) == MembersOf(t, store);
    assert store in t.byStore <==> store in t.localSockets.Values by {
      if store in t.byStore {
        var k :| k in t.byStore[store];
        assert k in MembersOf(t, store);
      }
      if store in t.localSockets.Values {
        var k :| k in t.localSockets && t.localSockets[k] == store;
        assert k in MembersOf(t, store);
      }
    }
    hide Rewatch, StoresOf, CountsOk, SocketsOk, GenerationsOk, PendingOk;
    if Watches(t, observer, store) && !Listed(presence, store) {
      LastWatcher(t, t', observer, store);
    }
  }

  lemma NewWatchList(t: Tracker, observer: Observer, presence: seq<Presence>, store: Store)
    requires NoZeros(t)
    ensures var t' := Step(t, SetObserved(observer, presence)).value;
            forall o :: Watches(t', o, store) <==> if o == observer then Listed(presence, store) else Watches(t, o, store)
  {
    var previous, next := Observed(t, observer), StoresOf(presence);
    FoldsFrame(t, previous, next);
    FoldsFrame(RemoveMissing(t, previous, next), next, previous);
    hide RemoveMissing, AddNew, StoresOf;
    assert store in next <==> Listed(presence, store);
  }

  lemma {:induction false} RemovalIgnoresLists(t: Tracker, observed: map<Observer, seq<Store>>, previous: seq<Store>)
    ensures RemoveMissing(t.(observed := observed), previous, []) == RemoveMissing(t, previous, []).(observed := observed)
  {
    if previous != [] {
      RemovalIgnoresLists(t, observed, previous[..|previous| - 1]);
      OneRemovalIgnoresLists(RemoveMissing(t, previous[..|previous| - 1], []), observed, previous[|previous| - 1]);
      hide RemoveObserver;
    }
  }

  lemma OneRemovalIgnoresLists(t: Tracker, observed: map<Observer, seq<Store>>, store: Store)
    ensures RemoveObserver(t.(observed := observed), store) == RemoveObserver(t, store).(observed := observed)
  {
    if store in t.observers && t.observers[store] > 0 {
      MarkIgnoresLists(t, observed, store);
      var authoritative := if store in t.byStore then t.authoritative else t.authoritative - {store};
      PruneIgnoresLists(Mark(t, store).(observers := t.observers - {store}, authoritative := authoritative), observed, store);
      hide Mark, Prune;
    }
  }

  lemma MarkIgnoresLists(t: Tracker, observed: map<Observer, seq<Store>>, store: Store)
    ensures Mark(t.(observed := observed), store) == Mark(t, store).(observed := observed)
  {
  }

  lemma PruneIgnoresLists(t: Tracker, observed: map<Observer, seq<Store>>, store: Store)
    ensures Prune(t.(observed := observed), store) == Prune(t, store).(observed := observed)
  {
  }

  /** `clear_observer` is observing nothing. */
  lemma ClearingIsObservingNothing(t: Tracker, observer: Observer)
    requires NoZeros(t)
    ensures Step(t, ClearObserver(observer)) == Step(t, SetObserved(observer, []))
  {
    hide RemoveMissing;
    FoldsFrame(t, Observed(t, observer), []);
    RemovalIgnoresLists(t, t.observed - {observer}, Observed(t, observer));
    assert StoresOf([]) == [] && OnlineStores([]) == {};
    var moved := RemoveMissing(t, Observed(t, observer), []);
    assert AddNew(moved, [], Observed(t, observer)) == moved;
    assert moved.authoritative + {} == moved.authoritative;
  }

  /** The answer at the head of the heartbeat is about `store`, and counts. */
  predicate Answers(t: Tracker, store: Store)
  {
    t.heartbeat.Some? && t.heartbeat.value != [] && t.heartbeat.value[0].store == store && Applies(t, t.heartbeat.value[0])
  }

  /** Apart from observing, the view of a store is the last thing Redis said about it. */
  lemma ViewIsTheLastAnswer(t: Tracker, e: Event, store: Store)
    requires Step(t, e).Some? && !e.SetObserved? && !e.ClearObserver?
    ensures store in Step(t, e).value.authoritative <==>
              || e == RegisterReply(store) || e == UnregisterReply(store, true)
              || (e == HeartbeatApply(true) && Answers(t, store))
              || (store in t.authoritative && e != UnregisterReply(store, false) &&
                  !(e == HeartbeatApply(false) && Answers(t, store)))
  {
    if e.HeartbeatApply? && t.heartbeat.Some? && t.heartbeat.value != [] {
      EntryAnswers(t, t.heartbeat.value[0], e.online, store);
      hide ApplyEntry;
    }
    hide Covered, Applies, IsTracked;
  }

  lemma EntryAnswers(t: Tracker, entry: Entry, online: bool, store: Store)
    ensures store in ApplyEntry(t, entry, online).authoritative <==>
              if Applies(t, entry) && entry.store == store then online else store in t.authoritative
  {
    hide Applies, Changed, IsTracked;
    var viewed := if Applies(t, entry) then Viewed(t, entry, online) else t;
    assert Prune(viewed, entry.store).authoritative == viewed.authoritative;
    hide Prune;
  }

  /** A number that has been drawn and is not, or no longer, the store's. */
  ghost predicate Retired(t: Tracker, store: Store, number: nat)
  {
    number <= t.nextGeneration && GenerationOf(t, store) != Some(number)
  }

  /** However often a store is pruned and tracked again, a number that it once lost, or never had, never becomes its own. */
  lemma {:induction false} RetiredNumbersNeverReturn(es: seq<Event>, n: nat, m: nat, store: Store, number: nat)
    requires Run(Step, EMPTY, es).Some? && n <= m <= |es| && Retired(At(Step, EMPTY, es, n), store, number)
    ensures Retired(At(Step, EMPTY, es, m), store, number)
    decreases m
  {
    hide Run, At, Step, CountsOk, SocketsOk, GenerationsOk, PendingOk;
    if n < m {
      RetiredNumbersNeverReturn(es, n, m - 1, store, number);
      StepAt(Step, EMPTY, es, m - 1);
      RunKeepsInv(es, m - 1);
      var t := At(Step, EMPTY, es, m - 1);
      StillRetired(t, es[m - 1], store, number);
    }
  }

  lemma StillRetired(t: Tracker, e: Event, store: Store, number: nat)
    requires Inv(t) && Step(t, e).Some? && Retired(t, store, number)
    ensures Retired(Step(t, e).value, store, number)
  {
    StepEvolves(t, e);
    hide Step;
    assert Untouched(t, Step(t, e).value, store) || Touched(t, Step(t, e).value, store);
  }

  /** A change draws a number that retires every earlier one: no entry taken before it applies, then or later. */
  lemma ChangeRetires(t: Tracker, store: Store, number: nat)
    requires GenerationsOk(t) && number <= t.nextGeneration
    ensures Retired(Mark(t, store), store, number) && GenerationsOk(Mark(t, store))
  {
    MarkKeepsGenerations(t, t, store);
  }

  /**
   The fence. Whenever a heartbeat answer is applied under a generation number, the store's tracking has not
   changed since the pipeline was sent - not even by being dropped and tracked again - and its local sockets and
   observed-ness are those of the snapshot.
   */
  lemma NumberedEntriesAreCurrent(es: seq<Event>, n: nat, online: bool)
    requires Run(Step, EMPTY, es).Some? && n < |es| && es[n] == HeartbeatApply(online)
    requires At(Step, EMPTY, es, n).heartbeat.Some? && At(Step, EMPTY, es, n).heartbeat.value != []
    requires Applies(At(Step, EMPTY, es, n), At(Step, EMPTY, es, n).heartbeat.value[0])
    requires At(Step, EMPTY, es, n).heartbeat.value[0].generation.Some?
    ensures var t := At(Step, EMPTY, es, n); var entry := t.heartbeat.value[0];
            && Marks(t, entry.store) == entry.marks
            && MembersOf(t, entry.store) == entry.members
            && (entry.store in t.observers <==> entry.observed)
  {
    RunKeepsInv(es, n);
    var t := At(Step, EMPTY, es, n);
    var entry := t.heartbeat.value[0];
    assert EntryOk(t, entry) && Local(t, entry.store) == MembersOf(t, entry.store);
  }

  /**
   And the fence lets through what it should: of a store with local sockets or observers here, a numbered answer is applied
   exactly when the tracking of the store has not changed since the snapshot.
   */
  lemma CurrentEntriesApply(es: seq<Event>, n: nat, entry: Entry)
    requires Run(Step, EMPTY, es).Some? && n <= |es|
    requires At(Step, EMPTY, es, n).heartbeat.Some? && entry in At(Step, EMPTY, es, n).heartbeat.value
    requires entry.generation.Some?
    requires var t := At(Step, EMPTY, es, n);
             || (exists k :: k in t.localSockets && t.localSockets[k] == entry.store)
             || (exists o :: o in t.observed && entry.store in t.observed[o])
    ensures var t := At(Step, EMPTY, es, n); Applies(t, entry) <==> Marks(t, entry.store) == entry.marks
  {
    RunKeepsInv(es, n);
    var t := At(Step, EMPTY, es, n);
    hide Run, At, Step;
    assert EntryOk(t, entry) && Local(t, entry.store) == MembersOf(t, entry.store);
    assert CountOk(t, entry.store);
    if o :| o in t.observed && entry.store in t.observed[o] {
      assert o in Watchers(t, entry.store);
    }
    if k :| k in t.localSockets && t.localSockets[k] == entry.store {
      assert k in MembersOf(t, entry.store);
    }
  }

  /** Known online, watched by somebody, or with a socket here. */
  ghost predicate Matters(t: Tracker, store: Store)
  {
    || store in t.authoritative
    || (exists o :: o in t.observed && store in t.observed[o])
    || (exists k :: k in t.localSockets && t.localSockets[k] == store)
  }

  ghost predicate HasEntry(entries: seq<Entry>, store: Store)
  {
    exists entry :: entry in entries && entry.store == store
  }

  /** One entry for every store that matters, and for no other. */
  ghost predicate CoversEverybody(t: Tracker, entries: seq<Entry>)
  {
    && (forall store :: HasEntry(entries, store) <==> Matters(t, store))
    && (forall i, j :: 0 <= i < j < |entries| ==> entries[i].store != entries[j].store)
  }

  /** Each has exactly the sockets of its store, and the number of the store at that moment. */
  ghost predicate Snapshots(t: Tracker, entries: seq<Entry>)
  {
    forall entry :: entry in entries ==>
      && (forall k :: k in entry.members <==> k in t.localSockets && t.localSockets[k] == entry.store)
      && entry.generation == (if entry.store in t.generation then Some(t.generation[entry.store]) else None)
  }

  /** What a heartbeat sends. */
  lemma HeartbeatCoversEverybody(es: seq<Event>, n: nat)
    requires Run(Step, EMPTY, es).Some? && n < |es| && es[n].HeartbeatSend?
    ensures At(Step, EMPTY, es, n + 1).heartbeat.Some?
    ensures var (t, entries) := (At(Step, EMPTY, es, n), At(Step, EMPTY, es, n + 1).heartbeat.value);
            CoversEverybody(t, entries) && Snapshots(t, entries)
  {
    StepAt(Step, EMPTY, es, n);
    Prefix(Step, EMPTY, es, n);
    ObserversAreCounted(es[..n]);
    hide Run, At, Step, CoversEverybody, Snapshots;
    SendCovers(At(Step, EMPTY, es, n), es[n].order);
  }

  lemma SendCovers(t: Tracker, order: seq<Store>)
    requires Step(t, HeartbeatSend(order)).Some?
    requires forall s :: s in t.observers <==> exists o :: o in t.observed && s in t.observed[o]
    ensures Step(t, HeartbeatSend(order)).value.heartbeat.Some?
    ensures var entries := Step(t, HeartbeatSend(order)).value.heartbeat.value;
            CoversEverybody(t, entries) && Snapshots(t, entries)
  {
    var entries := Step(t, HeartbeatSend(order)).value.heartbeat.value;
    assert |entries| == |order| && forall i :: 0 <= i < |order| ==> entries[i] == EntryFor(t, order[i]);
    hide Step;
    forall store ensures HasEntry(entries, store) <==> Matters(t, store) {
      assert store in order <==> store in Covered(t);
      assert store in t.localSockets.Values <==> exists k :: k in t.localSockets && t.localSockets[k] == store;
      assert store in t.observers <==> exists o :: o in t.observed && store in t.observed[o];
      if store in order {
        var i :| 0 <= i < |order| && order[i] == store;
        assert entries[i] in entries && entries[i].store == store;
      }
    }
    forall i, j | 0 <= i < j < |entries| ensures entries[i].store != entries[j].store {
      assert order[i] != order[j];
    }
  }

  /**
   An applied answer reports a transition exactly when the instance's view of the store flips, the reported value
   is the new view, and the new view is what Redis answered. This holds for numbered and unnumbered entries.
   */
  lemma AppliedEntryReportsFlips(es: seq<Event>, n: nat, online: bool)
    requires Run(Step, EMPTY, es).Some? && n < |es| && es[n] == HeartbeatApply(online)
    requires At(Step, EMPTY, es, n).heartbeat.Some? && At(Step, EMPTY, es, n).heartbeat.value != []
    requires Applies(At(Step, EMPTY, es, n), At(Step, EMPTY, es, n).heartbeat.value[0])
    ensures var t, t' := At(Step, EMPTY, es, n), At(Step, EMPTY, es, n + 1);
            var store := t.heartbeat.value[0].store;
            && (store in t'.authoritative <==> online)
            && t'.reported == if (store in t.authoritative) == (store in t'.authoritative) then t.reported
                              else t.reported + [Presence(store, store in t'.authoritative)]
  {
    RunKeepsInv(es, n);
    StepAt(Step, EMPTY, es, n);
    var t := At(Step, EMPTY, es, n);
    var entry := t.heartbeat.value[0];
    assert EntryOk(t, entry);
  }

  /**
   A store known only by an unregister answer that came back after its generation had been pruned: online
   somewhere, tracked, and without a generation number.
   */
  ghost predicate Unnumbered(t: Tracker, store: Store)
  {
    && store in t.authoritative && store !in t.byStore && store !in t.observers && store !in t.generation
    && (forall k :: k in t.localSockets ==> t.localSockets[k] != store)
    && (forall o :: o in t.observed ==> store !in t.observed[o])
  }

  /**
   How a store gets there: one socket registers, the store is observed, the socket goes, the observer goes, and
   only then does Redis answer that another instance keeps the store online.
   */
  function Visit(store: Store, socket: Socket, observer: Observer): seq<Event>
  {
    [Register(store, socket), RegisterReply(store), SetObserved(observer, [Presence(store, true)]),
     Unregister(store, socket), ClearObserver(observer), UnregisterReply(store, true)]
  }

  /** A store nobody on this instance is connected to or watches, and a socket and observer not in use. */
  ghost predicate Unvisited(t: Tracker, store: Store, socket: Socket, observer: Observer)
  {
    && store != "" && socket !in t.localSockets && observer !in t.observed
    && store !in t.byStore && store !in t.observers
    && (forall k :: k in t.localSockets ==> t.localSockets[k] != store)
    && (forall o :: o in t.observed ==> store !in t.observed[o])
  }

  lemma ObserveOnline(t: Tracker, observer: Observer, store: Store)
    requires store != "" && observer !in t.observed && store !in t.observers
    ensures Step(t, SetObserved(observer, [Presence(store, true)])) ==
            Some(Mark(t.(observers := t.observers[store := 1]), store).(
              observed := t.observed[observer := [store]], authoritative := t.authoritative + {store}))
  {
    var one := [Presence(store, true)];
    assert one[..|one| - 1] == [] && [store][..|[store]| - 1] == [];
    assert StoresOf(one) == [store] && OnlineStores(one) == {store};
    assert RemoveMissing(t, [], [store]) == t && AddNew(t, [], []) == t;
    assert AddNew(t, [store], []) == Mark(AddObserver(t, store), store);
  }

  lemma Unobserve(t: Tracker, observer: Observer, store: Store)
    requires observer in t.observed && t.observed[observer] == [store]
    requires store in t.observers && t.observers[store] == 1 && store !in t.byStore
    ensures Step(t, ClearObserver(observer)) ==
            Some(Mark(t, store).(observed := t.observed - {observer}, observers := t.observers - {store},
                                 authoritative := t.authoritative - {store}, generation := t.generation - {store}))
  {
    var hidden := t.(observed := t.observed - {observer});
    assert [store][..|[store]| - 1] == [];
    assert RemoveMissing(hidden, [store], []) == RemoveObserver(hidden, store);
    assert Mark(t, store).generation - {store} == t.generation - {store};
  }

  /** Halfway through a visit: connected, watched, and online. */
  ghost predicate Visited(t: Tracker, t': Tracker, store: Store, socket: Socket, observer: Observer)
  {
    && t'.byStore == t.byStore[store := {socket}] && t'.localSockets == t.localSockets[socket := store]
    && t'.observers == t.observers[store := 1] && t'.observed == t.observed[observer := [store]]
    && t'.authoritative == t.authoritative + {store} && t'.heartbeat == t.heartbeat && t'.reported == t.reported
    && t'.generation - {store} == t.generation - {store} && Marks(t', store) > Marks(t, store)
  }

  lemma FirstSocketJoins(t: Tracker, store: Store, socket: Socket)
    requires store !in t.byStore && socket !in t.localSockets
    ensures Step(t, Register(store, socket)) ==
            Some(Mark(t.(byStore := t.byStore[store := {socket}], localSockets := t.localSockets[socket := store]), store))
  {
    assert Local(t, store) + {socket} == {socket};
  }

  lemma RegisterAnswer(t: Tracker, store: Store)
    ensures Step(t, RegisterReply(store)) == Some(t.(authoritative := t.authoritative + {store}))
  {
  }

  lemma VisitStarts(t0: Tracker, es: seq<Event>, t: Tracker, store: Store, socket: Socket, observer: Observer)
    returns (es': seq<Event>, t': Tracker)
    requires Run(Step, t0, es) == Some(t) && Unvisited(t, store, socket, observer)
    ensures Run(Step, t0, es') == Some(t') && es' == es + Visit(store, socket, observer)[..3]
    ensures Visited(t, t', store, socket, observer)
  {
    hide Run, Step;
    FirstSocketJoins(t, store, socket);
    es', t' := Extend(Step, t0, es, Register(store, socket));
    RegisterAnswer(t', store);
    es', t' := Extend(Step, t0, es', RegisterReply(store));
    ObserveOnline(t', observer, store);
    es', t' := Extend(Step, t0, es', SetObserved(observer, [Presence(store, true)]));
  }

  lemma PutThenRemove<K, V>(m: map<K, V>, k: K, v: V)
    requires k !in m
    ensures m[k := v] - {k} == m
  {
  }

  lemma LastSocketLeaves(t: Tracker, store: Store, socket: Socket)
    requires socket in t.localSockets && t.localSockets[socket] == store && Local(t, store) == {socket}
    ensures Step(t, Unregister(store, socket)) ==
            Some(Mark(t.(byStore := t.byStore - {store}, localSockets := t.localSockets - {socket}), store))
  {
    assert Local(t, store) - {socket} == {};
  }

  lemma ReplyOnline(t: Tracker, store: Store)
    ensures Step(t, UnregisterReply(store, true)) == Some(t.(authoritative := t.authoritative + {store}))
  {
  }

  /** The three last events of a visit, one by one. */
  lemma LeaveSteps(t: Tracker, t1: Tracker, store: Store, socket: Socket, observer: Observer)
    returns (t2: Tracker, t3: Tracker, t4: Tracker)
    requires Unvisited(t, store, socket, observer) && Visited(t, t1, store, socket, observer)
    ensures Step(t1, Unregister(store, socket)) == Some(t2) && Step(t2, ClearObserver(observer)) == Some(t3)
    ensures Step(t3, UnregisterReply(store, true)) == Some(t4)
    ensures Left(t, t4, store)
  {
    PutThenRemove(t.byStore, store, {socket});
    PutThenRemove(t.localSockets, socket, store);
    PutThenRemove(t.observers, store, 1);
    PutThenRemove(t.observed, observer, [store]);
    LastSocketLeaves(t1, store, socket);
    hide Step;
    t2 := Mark(t1.(byStore := t.byStore, localSockets := t.localSockets), store);
    Unobserve(t2, observer, store);
    t3 := Mark(t2, store).(observed := t.observed, observers := t.observers,
                           authoritative := t2.authoritative - {store}, generation := t2.generation - {store});
    ReplyOnline(t3, store);
    t4 := t3.(authoritative := t.authoritative + {store});
    assert t3.authoritative + {store} == t.authoritative + {store};
  }

  /** After a visit only the history of the store is different, and it is online without a number. */
  ghost predicate Left(t: Tracker, t': Tracker, store: Store)
  {
    && t'.localSockets == t.localSockets && t'.byStore == t.byStore && t'.observers == t.observers
    && t'.observed == t.observed && t'.authoritative == t.authoritative + {store}
    && store !in t'.generation && Marks(t', store) > Marks(t, store)
    && t'.heartbeat == t.heartbeat && t'.reported == t.reported
  }

  lemma VisitEnds(t0: Tracker, es: seq<Event>, t: Tracker, t1: Tracker, store: Store, socket: Socket, observer: Observer)
    returns (es': seq<Event>, t': Tracker)
    requires Run(Step, t0, es) == Some(t1) && Unvisited(t, store, socket, observer)
    requires Visited(t, t1, store, socket, observer)
    ensures Run(Step, t0, es') == Some(t') && es' == es + Visit(store, socket, observer)[3..] && Left(t, t', store)
  {
    var t2, t3, t4 := LeaveSteps(t, t1, store, socket, observer);
    hide Run, Step, Visited, Unvisited, Left;
    es', t' := Extend(Step, t0, es, Unregister(store, socket));
    es', t' := Extend(Step, t0, es', ClearObserver(observer));
    es', t' := Extend(Step, t0, es', UnregisterReply(store, true));
  }

  lemma VisitEffect(t0: Tracker, es: seq<Event>, t: Tracker, store: Store, socket: Socket, observer: Observer)
    returns (es': seq<Event>, t': Tracker)
    requires Run(Step, t0, es) == Some(t) && Unvisited(t, store, socket, observer)
    ensures Run(Step, t0, es') == Some(t') && es' == es + Visit(store, socket, observer)
    ensures Unnumbered(t', store) && Marks(t', store) > Marks(t, store)
    ensures t'.localSockets == t.localSockets && t'.byStore == t.byStore && t'.observers == t.observers
    ensures t'.observed == t.observed && t'.authoritative == t.authoritative + {store}
    ensures t'.heartbeat == t.heartbeat && t'.reported == t.reported
  {
    var es1, t1 := VisitStarts(t0, es, t, store, socket, observer);
    es', t' := VisitEnds(t0, es1, t, t1, store, socket, observer);
    assert Visit(store, socket, observer) == Visit(store, socket, observer)[..3] + Visit(store, socket, observer)[3..];
    hide Run;
  }

  /**
   Without a number the fence can let a stale answer through. Store "s" is snapshotted unnumbered; while the
   heartbeat is busy publishing store "t", a second visit changes the tracking of "s" and ends with Redis
   answering online; then the old answer, offline, is applied and reported.
   */
  lemma UnnumberedEntryMayBeStale() returns (es: seq<Event>, t: Tracker, entry: Entry)
    ensures Run(Step, EMPTY, es) == Some(t) && t.heartbeat == Some([entry])
    ensures entry.store == "s" && entry.generation == None && Applies(t, entry)
    ensures Marks(t, "s") > entry.marks
    ensures es[|es| - 1] == UnregisterReply("s", true)
    ensures Step(t, HeartbeatApply(false)).Some? &&
            Step(t, HeartbeatApply(false)).value.reported == t.reported + [Presence("s", false)]
  {
    hide Run, Step;
    es, t := Start(Step, EMPTY);
    FirstSocketJoins(t, "t", 9);
    es, t := Extend(Step, EMPTY, es, Register("t", 9));
    es, t := VisitEffect(EMPTY, es, t, "s", 1, 1);
    TwoStoreHeartbeat(t);
    es, t := Extend(Step, EMPTY, es, HeartbeatSend(["t", "s"]));
    entry := t.heartbeat.value[1];
    assert 9 in MembersOf(t, "t");
    FirstEntryFlips(t);
    es, t := Extend(Step, EMPTY, es, HeartbeatApply(true));
    es, t := VisitEffect(EMPTY, es, t, "s", 2, 2);
    OldAnswerApplies(t, entry);
  }

  lemma TwoStoreHeartbeat(t: Tracker)
    requires t.heartbeat == None && t.authoritative == {"s"} && t.observers == map[] && t.localSockets == map[9 := "t"]
    ensures Step(t, HeartbeatSend(["t", "s"])) == Some(t.(heartbeat := Some([EntryFor(t, "t"), EntryFor(t, "s")])))
  {
    var order := ["t", "s"];
    assert t.localSockets.Values == {"t"} by {
      assert t.localSockets[9] in t.localSockets.Values;
    }
    assert (set s | s in order) == {"t", "s"} by {
      assert order[0] == "t" && order[1] == "s";
    }
    assert Covered(t) == {"t", "s"};
    assert "t" != "s" && Distinct(order);
    assert seq(2, i requires 0 <= i < 2 => EntryFor(t, order[i])) == [EntryFor(t, "t"), EntryFor(t, "s")];
  }

  /** The first entry is applied and reported, which is when the real loop awaits its listener. */
  lemma FirstEntryFlips(t: Tracker)
    requires t.heartbeat.Some? && |t.heartbeat.value| == 2 && "t" in t.byStore && "t" !in t.authoritative
    requires t.heartbeat.value[0] == EntryFor(t, "t") && MembersOf(t, "t") != {}
    ensures Step(t, HeartbeatApply(true)) ==
            Some(t.(authoritative := t.authoritative + {"t"}, reported := t.reported + [Presence("t", true)],
                    heartbeat := Some([t.heartbeat.value[1]])))
  {
    assert t.heartbeat.value[1..] == [t.heartbeat.value[1]];
  }

  lemma OldAnswerApplies(t: Tracker, entry: Entry)
    requires t.heartbeat == Some([entry]) && entry.store == "s" && entry.generation == None && Unnumbered(t, "s")
    ensures Applies(t, entry)
    ensures Step(t, HeartbeatApply(false)).Some? &&
            Step(t, HeartbeatApply(false)).value.reported == t.reported + [Presence("s", false)]
  {
  }
}
