/**
 The presence service as objects updated in place: the sorted set with its three scripts, equal to `RunCommand`,
 and the instance's maps with its synchronous segments, equal to the steps of module PresenceTracking.
 */
module PresenceService {
  import opened Redis
  import opened PresenceTracking
  import Store = PresenceStore

  /** One presence key in Redis. */
  class PresenceKey {
    var scores: map<Store.Member, int>
    var expiresAt: int

    function Model(): Store.Zset
      reads this
    {
      Store.Zset(scores, expiresAt)
    }

    constructor (now: int)
      ensures Model() == Store.Zset(map[], now)
    {
      scores, expiresAt := map[], now;
    }

    /** `ZREMRANGEBYSCORE key -inf now`, on a key that may have expired; returns how many members it removed. */
    method RemoveExpired(now: int) returns (removed: nat)
      modifies this
      ensures scores == Store.Prune(Store.Visible(old(Model()), now), now) && expiresAt == old(expiresAt)
      ensures removed == |Store.Visible(old(Model()), now)| - |scores|
    {
      var seen := Store.Visible(Model(), now);
      scores := Store.Prune(seen, now);
      PruneShrinks(seen, now);
      removed := |seen| - |scores|;
    }

    /** register_presence_script; `changed` is what `register` derives from its answer. */
    method RegisterScript(member: Store.Member, now: int, ttl: nat) returns (changed: bool)
      modifies this
      ensures var (z, flips) := Store.RunCommand(old(Model()), Store.Register(member), now, ttl);
              Model() == z && changed == (flips == [true])
      ensures member in scores && scores[member] == now + ttl && expiresAt == now + 2 * ttl
      ensures changed <==> forall m :: m in old(scores) ==> old(scores)[m] <= now || old(expiresAt) <= now
    {
      var _ := RemoveExpired(now);
      var wasOnline := |scores|;
      ghost var live := scores;
      scores := scores[member := now + ttl];
      expiresAt := now + 2 * ttl;
      changed := wasOnline == 0;
      assert changed <==> live == map[];
    }

    /** unregister_presence_script */
    method UnregisterScript(member: Store.Member, now: int, ttl: nat) returns (changed: bool)
      modifies this
      ensures var (z, flips) := Store.RunCommand(old(Model()), Store.Unregister(member), now, ttl);
              Model() == z && changed == (flips == [false])
      ensures member !in scores && expiresAt == old(expiresAt)
      ensures changed <==> member in old(scores) && now < old(expiresAt) && scores == map[]
    {
      var removed := member in Store.Visible(Model(), now);
      scores := Store.Prune(Store.Visible(Model(), now) - {member}, now);
      changed := removed && |scores| == 0;
    }

    /** refresh_presence_script, with its loop over the members in ARGV; `online` is `online_after_refresh > 0`. */
    method RefreshScript(argv: seq<Store.Member>, now: int, ttl: nat) returns (online: bool)
      modifies this
      ensures Model() == Store.RunCommand(old(Model()), Store.Refresh(Elements(argv)), now, ttl).0
      ensures online <==> scores != map[]
      ensures Refreshed(old(Model()), Elements(argv), now, ttl, Model())
    {
      hide Refreshed, Store.RunCommand, Store.AddAll, Elements, Store.Prune, Store.Visible;
      ghost var z := Model();
      var _ := RemoveExpired(now);
      AddMembers(argv, now + ttl);
      online := |scores| > 0;
      if online {
        expiresAt := now + 2 * ttl;
      }
      RefreshIs(z, Elements(argv), now, ttl, Model());
    }

    /** Its loop: `ZADD` of each member in ARGV. */
    method AddMembers(argv: seq<Store.Member>, score: int)
      modifies this
      ensures scores == Store.AddAll(old(scores), Elements(argv), score) && expiresAt == old(expiresAt)
    {
      hide Store.AddAll, Elements;
      ghost var live := scores;
      AddNone(live, score);
      for index := 0 to |argv|
        invariant scores == Store.AddAll(live, Elements(argv[..index]), score) && expiresAt == old(expiresAt)
      {
        AddOneMore(live, argv, index, score);
        scores := scores[argv[index] := score];
      }
      assert argv[..|argv|] == argv;
    }
  }

  /** Each of `members` has a new lease, the other live members have theirs, and nobody else is left. */
  ghost predicate Refreshed(before: Store.Zset, members: set<Store.Member>, now: int, ttl: nat, after: Store.Zset)
  {
    && (forall m :: m in members ==> m in after.scores && after.scores[m] == now + ttl)
    && (forall m :: m !in members ==>
          if m in before.scores && now < before.expiresAt && now < before.scores[m]
          then m in after.scores && after.scores[m] == before.scores[m] else m !in after.scores)
    && after.expiresAt == if after.scores != map[] then now + 2 * ttl else before.expiresAt
  }

  /** What a refresh computes: prune, add, and extend the key of a set that is not empty. */
  lemma RefreshIs(z: Store.Zset, members: set<Store.Member>, now: int, ttl: nat, after: Store.Zset)
    requires after.scores == Store.AddAll(Store.Prune(Store.Visible(z, now), now), members, now + ttl)
    requires after.expiresAt == if |after.scores| > 0 then now + 2 * ttl else z.expiresAt
    ensures after == Store.RunCommand(z, Store.Refresh(members), now, ttl).0 && Refreshed(z, members, now, ttl, after)
  {
    RefreshEffect(z, members, now, ttl);
  }

  lemma RefreshEffect(z: Store.Zset, members: set<Store.Member>, now: int, ttl: nat)
    ensures Refreshed(z, members, now, ttl, Store.RunCommand(z, Store.Refresh(members), now, ttl).0)
  {
    var after := Store.RunCommand(z, Store.Refresh(members), now, ttl).0;
    assert forall m :: m in after.scores <==> m in after.scores.Keys;
  }

  function Elements(members: seq<Store.Member>): set<Store.Member>
  {
    set m | m in members
  }

  lemma AddNone(live: map<Store.Member, int>, score: int)
    ensures Store.AddAll(live, Elements([]), score) == live
  {
  }

  lemma AddOneMore(live: map<Store.Member, int>, members: seq<Store.Member>, i: nat, score: int)
    requires i < |members|
    ensures Store.AddAll(live, Elements(members[..i + 1]), score)
         == Store.AddAll(live, Elements(members[..i]), score)[members[i] := score]
  {
    assert members[..i + 1] == members[..i] + [members[i]];
    assert Elements(members[..i + 1]) == Elements(members[..i]) + {members[i]};
  }

  lemma PruneShrinks(scores: map<Store.Member, int>, at: int)
    ensures |Store.Prune(scores, at)| <= |scores|
  {
    SubsetSize(Store.Prune(scores, at).Keys, scores.Keys);
  }

  lemma {:induction false} SubsetSize<T>(a: set<T>, b: set<T>)
    requires a <= b
    ensures |a| <= |b|
  {
    if a != {} {
      var x :| x in a;
      SubsetSize(a - {x}, b - {x});
    }
  }

  function StoresAmong(sockets: map<Socket, PresenceTracking.Store>, done: set<Socket>): set<PresenceTracking.Store>
  {
    set k | k in sockets && k in done :: sockets[k]
  }

  function SocketsAmong(sockets: map<Socket, PresenceTracking.Store>, done: set<Socket>, store: PresenceTracking.Store)
    : set<Socket>
  {
    set k | k in sockets && k in done && sockets[k] == store
  }

  /** The sockets of `done`, grouped by store; the stores of `listed` have a group even without sockets. */
  function Grouped(listed: set<PresenceTracking.Store>, sockets: map<Socket, PresenceTracking.Store>, done: set<Socket>)
    : (r: map<PresenceTracking.Store, set<Socket>>)
    ensures r.Keys == listed + StoresAmong(sockets, done)
  {
    map s | s in listed + StoresAmong(sockets, done) :: SocketsAmong(sockets, done, s)
  }

  lemma GroupNone(listed: set<PresenceTracking.Store>, sockets: map<Socket, PresenceTracking.Store>)
    ensures Grouped(listed, sockets, {}).Keys == listed
    ensures forall s :: s in listed ==> Grouped(listed, sockets, {})[s] == {}
  {
    assert StoresAmong(sockets, {}) == {};
    assert forall s :: SocketsAmong(sockets, {}, s) == {};
  }

  lemma GroupOneMore(
    listed: set<PresenceTracking.Store>, sockets: map<Socket, PresenceTracking.Store>, done: set<Socket>, k: Socket)
    requires k in sockets
    ensures Grouped(listed, sockets, done + {k}) ==
            Grouped(listed, sockets, done)[sockets[k] := SocketsAmong(sockets, done, sockets[k]) + {k}]
    ensures sockets[k] in Grouped(listed, sockets, done) ==>
              Grouped(listed, sockets, done)[sockets[k]] == SocketsAmong(sockets, done, sockets[k])
    ensures sockets[k] !in Grouped(listed, sockets, done) ==> SocketsAmong(sockets, done, sockets[k]) == {}
  {
    assert StoresAmong(sockets, done + {k}) == StoresAmong(sockets, done) + {sockets[k]};
    forall s
      ensures SocketsAmong(sockets, done + {k}, s) ==
              SocketsAmong(sockets, done, s) + if s == sockets[k] then {k} else {}
    {
    }
    if j :| j in SocketsAmong(sockets, done, sockets[k]) {
      assert sockets[k] in StoresAmong(sockets, done);
    }
    var before, after := Grouped(listed, sockets, done), Grouped(listed, sockets, done + {k});
    var grown := before[sockets[k] := SocketsAmong(sockets, done, sockets[k]) + {k}];
    hide SocketsAmong, StoresAmong;
    assert after.Keys == grown.Keys;
    forall s | s in after ensures after[s] == grown[s] {
    }
  }

  lemma GroupAll(listed: set<PresenceTracking.Store>, t: Tracker)
    ensures Grouped(listed, t.localSockets, t.localSockets.Keys).Keys == listed + t.localSockets.Values
    ensures forall s :: s in Grouped(listed, t.localSockets, t.localSockets.Keys) ==>
              Grouped(listed, t.localSockets, t.localSockets.Keys)[s] == MembersOf(t, s)
  {
    assert StoresAmong(t.localSockets, t.localSockets.Keys) == t.localSockets.Values;
    assert forall s :: SocketsAmong(t.localSockets, t.localSockets.Keys, s) == MembersOf(t, s);
  }

  /** `PresenceService`: the tracking fields and their synchronous segments. */
  class Service {
    var localSockets: map<Socket, PresenceTracking.Store>
    var byStore: map<PresenceTracking.Store, set<Socket>>
    var authoritative: set<PresenceTracking.Store>
    var observed: map<Observer, seq<PresenceTracking.Store>>
    var observers: map<PresenceTracking.Store, nat>
    var generation: map<PresenceTracking.Store, nat>
    var nextGeneration: nat
    var marks: map<PresenceTracking.Store, nat>
    var heartbeat: Option<seq<Entry>>
    var reported: seq<Presence>

    function Model(): Tracker
      reads this
    {
      Tracker(localSockets, byStore, authoritative, observed, observers, generation, nextGeneration, marks,
              heartbeat, reported)
    }

    constructor ()
      ensures Model() == EMPTY
    {
      localSockets, byStore, authoritative, observed, observers := map[], map[], {}, map[], map[];
      generation, nextGeneration, marks, heartbeat, reported := map[], 0, map[], None, [];
    }

    method MarkTrackingChanged(store: PresenceTracking.Store)
      modifies this
      ensures Model() == Mark(old(Model()), store)
      ensures GenerationsOk(old(Model())) ==> forall s :: s in old(generation) ==> generation[store] > old(generation)[s]
    {
      marks := marks[store := Marks(Model(), store) + 1];
      nextGeneration := nextGeneration + 1;
      generation := generation[store := nextGeneration];
    }

    method PruneTrackingGeneration(store: PresenceTracking.Store)
      modifies this
      ensures Model() == Prune(old(Model()), store)
    {
      if !IsTracked(Model(), store) {
        generation := generation - {store};
      }
    }

    method RegisterLocally(store: PresenceTracking.Store, socket: Socket)
      requires SocketOf(Model(), socket, store)
      modifies this
      ensures Some(Model()) == Step(old(Model()), Register(store, socket))
    {
      var sockets := if store in byStore then byStore[store] else {};
      byStore := byStore[store := sockets + {socket}];
      localSockets := localSockets[socket := store];
      MarkTrackingChanged(store);
    }

    method UnregisterLocally(store: PresenceTracking.Store, socket: Socket) returns (locallyRemoved: bool)
      requires SocketOf(Model(), socket, store) && SocketsOk(Model())
      modifies this
      ensures Some(Model()) == Step(old(Model()), Unregister(store, socket))
      ensures locallyRemoved <==> old(socket in localSockets)
    {
      locallyRemoved := socket in localSockets;
      if locallyRemoved {
        assert Local(Model(), store) == MembersOf(Model(), store);
        assert socket in MembersOf(Model(), store);
        var left := byStore[store] - {socket};
        byStore := byStore[store := left];
        localSockets := localSockets - {socket};
        if left == {} {
          byStore := byStore - {store};
        }
        assert byStore == WithoutSocket(old(Model()), store, socket).byStore;
        MarkTrackingChanged(store);
      }
    }

    method RemoveStoreObserver(store: PresenceTracking.Store)
      modifies this
      ensures Model() == RemoveObserver(old(Model()), store)
    {
      if store !in observers || observers[store] == 0 {
        return;
      }
      MarkTrackingChanged(store);
      var remaining := observers[store] - 1;
      if remaining > 0 {
        observers := observers[store := remaining];
        return;
      }
      observers := observers - {store};
      if store !in byStore {
        authoritative := authoritative - {store};
      }
      PruneTrackingGeneration(store);
    }

    /** The first loop of `set_observed_presence`: stop observing the stores that are no longer listed. */
    method RemoveAllMissing(previous: seq<PresenceTracking.Store>, next: seq<PresenceTracking.Store>)
      modifies this
      ensures Model() == RemoveMissing(old(Model()), previous, next)
    {
      for i := 0 to |previous|
        invariant Model() == RemoveMissing(old(Model()), previous[..i], next)
      {
        assert previous[..i + 1][..i] == previous[..i];
        if previous[i] !in next {
          RemoveStoreObserver(previous[i]);
        }
      }
      assert previous[..|previous|] == previous;
    }

    /** Its second loop: observe the new stores, and note a change for every listed one. */
    method AddAllNew(next: seq<PresenceTracking.Store>, previous: seq<PresenceTracking.Store>)
      modifies this
      ensures Model() == AddNew(old(Model()), next, previous)
    {
      for i := 0 to |next|
        invariant Model() == AddNew(old(Model()), next[..i], previous)
      {
        assert next[..i + 1][..i] == next[..i];
        if next[i] !in previous {
          observers := observers[next[i] := (if next[i] in observers then observers[next[i]] else 0) + 1];
        }
        MarkTrackingChanged(next[i]);
      }
      assert next[..|next|] == next;
    }

    method SetObservedPresence(observer: Observer, presence: seq<Presence>)
      modifies this
      ensures Some(Model()) == Step(old(Model()), SetObserved(observer, presence))
    {
      var next := StoresOf(presence);
      var previous := Observed(Model(), observer);
      hide RemoveMissing, AddNew, StoresOf, OnlineStores;
      RemoveAllMissing(previous, next);
      AddAllNew(next, previous);
      if next != [] {
        observed := observed[observer := next];
      } else {
        observed := observed - {observer};
      }
      MarkAllOnline(presence);
    }

    /** The last loop of `set_observed_presence`: stores reported online enter the authoritative view. */
    method MarkAllOnline(presence: seq<Presence>)
      modifies this`authoritative
      ensures authoritative == old(authoritative) + OnlineStores(presence)
    {
      for i := 0 to |presence|
        invariant authoritative == old(authoritative) + OnlineStores(presence[..i])
      {
        assert presence[..i + 1] == presence[..i] + [presence[i]];
        if presence[i].online {
          authoritative := authoritative + {presence[i].store};
        }
      }
      assert presence[..|presence|] == presence;
    }

    method ClearObserver(observer: Observer)
      modifies this
      ensures Some(Model()) == Step(old(Model()), Event.ClearObserver(observer))
    {
      var stores := Observed(Model(), observer);
      observed := observed - {observer};
      RemoveAllMissing(stores, []);
    }

    /** The stores that `refresh_redis_presence` covers, each with its local sockets; the loop is its third one. */
    method MembersByStore() returns (members: map<PresenceTracking.Store, set<Socket>>)
      ensures forall s :: s in members <==> s in authoritative || s in observers || s in localSockets.Values
      ensures forall s :: s in members ==> members[s] == MembersOf(Model(), s)
    {
      hide Grouped, SocketsAmong, StoresAmong, MembersOf;
      ghost var listed := authoritative + observers.Keys;
      GroupNone(listed, localSockets);
      members := map s | s in authoritative + observers.Keys :: {};
      assert members == Grouped(listed, localSockets, {});
      var rest := localSockets.Keys;
      assert localSockets.Keys - rest == {};
      while rest != {}
        invariant rest <= localSockets.Keys
        invariant members == Grouped(listed, localSockets, localSockets.Keys - rest)
        decreases |rest|
      {
        var socket :| socket in rest;
        GroupOneMore(listed, localSockets, localSockets.Keys - rest, socket);
        assert localSockets.Keys - rest + {socket} == localSockets.Keys - (rest - {socket});
        var store := localSockets[socket];
        members := members[store := (if store in members then members[store] else {}) + {socket}];
        rest := rest - {socket};
      }
      assert localSockets.Keys - {} == localSockets.Keys;
      GroupAll(listed, Model());
    }

    /** Snapshot the covered stores; `order` is the order in which the map lists them. */
    method HeartbeatSend(order: seq<PresenceTracking.Store>)
      requires heartbeat.None? && order != [] && Distinct(order)
      requires forall s :: s in order <==> s in authoritative || s in observers || s in localSockets.Values
      modifies this
      ensures Some(Model()) == Step(old(Model()), Event.HeartbeatSend(order))
      ensures Snapshots(old(Model()), heartbeat.value)
    {
      var members := MembersByStore();
      assert (set s | s in order) == Covered(Model());
      var entries: seq<Entry> := [];
      for i := 0 to |order|
        invariant Model() == old(Model())
        invariant |entries| == i && forall k :: 0 <= k < i ==> entries[k] == EntryFor(old(Model()), order[k])
      {
        assert order[i] in members;
        entries := entries + [Entry(order[i], members[order[i]], GenerationOf(Model(), order[i]),
                                    Marks(Model(), order[i]), order[i] in observers)];
      }
      heartbeat := Some(entries);
      assert entries == Step(old(Model()), Event.HeartbeatSend(order)).value.heartbeat.value;
    }

    /** The body of the loop over the answers. */
    method HeartbeatApply(online: bool)
      requires heartbeat.Some? && heartbeat.value != []
      modifies this
      ensures Some(Model()) == Step(old(Model()), Event.HeartbeatApply(online))
    {
      var entry := heartbeat.value[0];
      heartbeat := Some(heartbeat.value[1..]);
      if GenerationOf(Model(), entry.store) != entry.generation || !IsTracked(Model(), entry.store) {
        PruneTrackingGeneration(entry.store);
        return;
      }
      var previouslyOnline := entry.store in authoritative;
      var changed := if !previouslyOnline then online && (entry.members != {} || entry.store in observers)
                     else previouslyOnline != online;
      authoritative := if online then authoritative + {entry.store} else authoritative - {entry.store};
      PruneTrackingGeneration(entry.store);
      if changed {
        reported := reported + [Presence(entry.store, online)];
      }
    }
  }
}
