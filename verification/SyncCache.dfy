/**
 The versioned initial-sync cache (src/services/sync_cache.ts) as a state machine.

 One event is one synchronous segment between two `await`s of `get_or_load`, or one atomic Redis command.
 Every event advances `clock`, so version tokens and loader starts can be named by the event that made them:
 a token is the clock right after its bump (fresh, like `randomUUID`; 0 is the literal `'0'` of a missing
 key), and a cached value is represented by where it came from, the start of the loader run that produced it.
 */
module SyncCache {
  import opened Machine
  import opened Redis

  // ---------- keys ----------

  datatype Scope =
    | Chat(store: string)
    | NotificationStore(store: string)
    | NotificationUser(store: string, user: string)
    | Ecommerce(store: string, visitor: string)

  /** What a snapshot is about: the namespace and identity arguments of `get_or_load`. */
  datatype Subject =
    | StoreInitial(store: string, user: string, role: string)
    | EcommerceInitial(store: string, visitor: string)

  function ScopesOf(subject: Subject): seq<Scope>
  {
    match subject
    case StoreInitial(store, user, _) => [Chat(store), NotificationStore(store), NotificationUser(store, user)]
    case EcommerceInitial(store, visitor) => [Ecommerce(store, visitor)]
  }

  type Token = nat

  /** The cache key hashes the identity together with the version vector it was read under. */
  datatype CacheKey = CacheKey(subject: Subject, versions: seq<Token>)

  // ---------- state ----------

  /** A loaded value, identified by the start of its loader run: event clock and Redis time. */
  datatype Snapshot = Snapshot(startedAt: nat, startTime: int)

  datatype LoadPhase = Running | Settled(stale: bool) | Rejected

  /** One promise of `in_flight_loads`, with the instance that owns it. */
  datatype Load = Load(instance: nat, key: CacheKey, source: Snapshot, phase: LoadPhase)

  datatype CallPhase =
    | Start                           // about to MGET the versions
    | HaveVersions(versions: seq<Token>)
    | Checked(versions: seq<Token>)   // stable read matched, nothing usable was cached
    | Waiting(load: nat)
    | Direct(source: Snapshot)        // running the loader without the cache
    | Done(value: Snapshot)
    | Failed

  /** `floor` remembers, per scope, the last bump executed before the call began. */
  datatype Call = Call(instance: nat, subject: Subject, floor: seq<nat>, attempt: nat, phase: CallPhase)

  /** `ttl` is `redis_sync_cache_time_to_live_seconds`; with ttl 0 the cache is never available. */
  datatype State = State(
    ttl: nat,
    clock: nat,
    now: int,
    versions: map<Scope, Cell<Token>>,
    entries: map<CacheKey, Cell<Snapshot>>,
    inFlight: map<(nat, CacheKey), nat>,
    loads: map<nat, Load>,
    calls: map<nat, Call>)

  function VersionTtlMs(ttl: nat): int { Max(60, ttl * 3) * 1000 }

  function EntryTtlMs(ttl: nat): int { ttl * 1000 }

  const MAXIMUM_ATTEMPTS: nat := 3

  function Init(ttl: nat, now: int): State
  {
    State(ttl, 0, now, map[], map[], map[], map[], map[])
  }

  /** The version a script sees: a missing or expired key reads as `'0'`. */
  function Current(s: State, scope: Scope): Token
  {
    match Get(s.versions, scope, s.now)
    case Some(token) => token
    case None => 0
  }

  function CurrentVersions(s: State, subject: Subject): (r: seq<Token>)
    ensures |r| == |ScopesOf(subject)|
    ensures forall i :: 0 <= i < |r| ==> r[i] == Current(s, ScopesOf(subject)[i])
  {
    seq(|ScopesOf(subject)|, i requires 0 <= i < |ScopesOf(subject)| => Current(s, ScopesOf(subject)[i]))
  }

  /** The last bump ever executed on a scope, whether or not its key has expired since. */
  function LastBump(s: State, scope: Scope): nat
  {
    if scope in s.versions then s.versions[scope].value else 0
  }

  function LastBumps(s: State, subject: Subject): (r: seq<nat>)
    ensures |r| == |ScopesOf(subject)|
    ensures forall i :: 0 <= i < |r| ==> r[i] == LastBump(s, ScopesOf(subject)[i])
  {
    seq(|ScopesOf(subject)|, i requires 0 <= i < |ScopesOf(subject)| => LastBump(s, ScopesOf(subject)[i]))
  }

  // ---------- events ----------

  datatype Event =
    | Tick(ms: nat)
    | Bump(scope: Scope)
    | Evict(key: CacheKey)                                   // DEL of invalid JSON, or any other removal
    | Begin(id: nat, instance: nat, subject: Subject, cacheUp: bool)
    | ReadVersions(id: nat)
    | RedisFails(id: nat)                                    // MGET or the stable read throws
    | ReadStable(id: nat, corrupt: bool)
    | LoadVersioned(id: nat)
    | WriteStable(load: nat, replyLost: bool)
    | WriteFails(load: nat)
    | LoaderRejects(load: nat)
    | Release(load: nat)                                     // the leader's `finally`
    | Resume(id: nat)
    | DirectReturns(id: nat)
    | DirectRejects(id: nat)

  function Phase(s: State, id: nat): CallPhase
  {
    if id in s.calls then s.calls[id].phase else Failed
  }

  predicate Enabled(s: State, e: Event)
  {
    match e
    case Tick(_) => true
    case Bump(_) => s.ttl > 0
    case Evict(_) => true
    case Begin(id, _, _, cacheUp) => id !in s.calls && (cacheUp ==> s.ttl > 0)
    case ReadVersions(id) => Phase(s, id).Start?
    case RedisFails(id) => (Phase(s, id).Start? || Phase(s, id).HaveVersions?)
    case ReadStable(id, _) => Phase(s, id).HaveVersions?
    case LoadVersioned(id) => Phase(s, id).Checked?
    case WriteStable(load, _) => load in s.loads && s.loads[load].phase.Running?
    case WriteFails(load) => load in s.loads && s.loads[load].phase.Running?
    case LoaderRejects(load) => load in s.loads && s.loads[load].phase.Running?
    case Release(load) =>
      load in s.loads && !s.loads[load].phase.Running? &&
      var flight := (s.loads[load].instance, s.loads[load].key);
      flight in s.inFlight && s.inFlight[flight] == load
    case Resume(id) =>
      Phase(s, id).Waiting? && s.calls[id].phase.load in s.loads &&
      !s.loads[s.calls[id].phase.load].phase.Running?
    case DirectReturns(id) => Phase(s, id).Direct?
    case DirectRejects(id) => Phase(s, id).Direct?
  }

  /** A loader started by the event being applied. */
  function StartHere(s: State): Snapshot { Snapshot(s.clock + 1, s.now) }

  function WithPhase(s: State, id: nat, phase: CallPhase): map<nat, Call>
    requires id in s.calls
  {
    s.calls[id := s.calls[id].(phase := phase)]
  }

  /** `continue`, or the final uncached `loader()` once the attempts are used up. */
  function NextAttempt(s: State, c: Call): Call
  {
    if c.attempt + 1 < MAXIMUM_ATTEMPTS
    then c.(attempt := c.attempt + 1, phase := Start)
    else c.(attempt := c.attempt + 1, phase := Direct(StartHere(s)))
  }

  /** What the stable-read script and the code right after it do for one call. */
  function AfterRead(s: State, c: Call, corrupt: bool): Call
    requires c.phase.HaveVersions?
  {
    var versions := c.phase.versions;
    if CurrentVersions(s, c.subject) != versions then NextAttempt(s, c)
    else
      match Get(s.entries, CacheKey(c.subject, versions), s.now)
      case Some(value) => if corrupt then c.(phase := Checked(versions)) else c.(phase := Done(value))
      case None => c.(phase := Checked(versions))
  }

  /** What a waiter does once the shared promise has settled. */
  function AfterLoad(s: State, c: Call, load: Load): Call
  {
    match load.phase
    case Settled(stale) => if stale then NextAttempt(s, c) else c.(phase := Done(load.source))
    case Rejected => c.(phase := Failed)
    case Running => c
  }

  function Effect(s: State, e: Event): State
    requires Enabled(s, e)
  {
    match e
    case Tick(ms) => s.(now := s.now + ms)
    case Bump(scope) => s.(versions := s.versions[scope := Cell(s.clock + 1, s.now + VersionTtlMs(s.ttl))])
    case Evict(key) => s.(entries := s.entries - {key})
    case Begin(id, instance, subject, cacheUp) =>
      var phase := if cacheUp then Start else Direct(StartHere(s));
      s.(calls := s.calls[id := Call(instance, subject, LastBumps(s, subject), 0, phase)])
    case ReadVersions(id) => s.(calls := WithPhase(s, id, HaveVersions(CurrentVersions(s, s.calls[id].subject))))
    case RedisFails(id) => s.(calls := WithPhase(s, id, Direct(StartHere(s))))
    case ReadStable(id, corrupt) => s.(calls := s.calls[id := AfterRead(s, s.calls[id], corrupt)])
    case LoadVersioned(id) =>
      var c := s.calls[id];
      var key := CacheKey(c.subject, c.phase.versions);
      if (c.instance, key) in s.inFlight then
        s.(calls := WithPhase(s, id, Waiting(s.inFlight[(c.instance, key)])))
      else
        s.(loads := s.loads[s.clock + 1 := Load(c.instance, key, StartHere(s), Running)],
           inFlight := s.inFlight[(c.instance, key) := s.clock + 1],
           calls := WithPhase(s, id, Waiting(s.clock + 1)))
    case WriteStable(load, replyLost) =>
      var l := s.loads[load];
      var match_ := CurrentVersions(s, l.key.subject) == l.key.versions;
      s.(entries := if match_ then s.entries[l.key := Cell(l.source, s.now + EntryTtlMs(s.ttl))] else s.entries,
         loads := s.loads[load := l.(phase := Settled(!match_ && !replyLost))])
    case WriteFails(load) => s.(loads := s.loads[load := s.loads[load].(phase := Settled(false))])
    case LoaderRejects(load) => s.(loads := s.loads[load := s.loads[load].(phase := Rejected)])
    case Release(load) => s.(inFlight := s.inFlight - {(s.loads[load].instance, s.loads[load].key)})
    case Resume(id) => s.(calls := s.calls[id := AfterLoad(s, s.calls[id], s.loads[s.calls[id].phase.load])])
    case DirectReturns(id) => s.(calls := WithPhase(s, id, Done(s.calls[id].phase.source)))
    case DirectRejects(id) => s.(calls := WithPhase(s, id, Failed))
  }

  function Step(s: State, e: Event): Option<State>
  {
    if Enabled(s, e) then Some(Effect(s, e).(clock := s.clock + 1)) else None
  }

  // ---------- runs ----------

  /** No load stays in flight for the lifetime of a version key. This is the one timing assumption. */
  predicate Prompt(s: State)
  {
    forall k :: k in s.inFlight && s.inFlight[k] in s.loads ==>
      s.now < s.loads[s.inFlight[k]].source.startTime + VersionTtlMs(s.ttl)
  }

  ghost predicate PromptRun(s0: State, es: seq<Event>)
    requires Run(Step, s0, es).Some?
  {
    forall n: nat :: n <= |es| ==> Prompt(At(Step, s0, es, n))
  }

  // ---------- invariant ----------

  /** Every scope in `subject` was last bumped before event `t`. */
  ghost predicate NotBumpedSince(s: State, subject: Subject, t: nat)
  {
    forall i :: 0 <= i < |ScopesOf(subject)| ==> LastBump(s, ScopesOf(subject)[i]) < t
  }

  ghost predicate AllBelow(xs: seq<nat>, t: nat)
  {
    forall i :: 0 <= i < |xs| ==> xs[i] < t
  }

  /** If a scope of `subject` was bumped after event `t`, that bump happened at time `time` or later. */
  ghost predicate BumpedNoSooner(s: State, subject: Subject, t: nat, time: int)
  {
    forall i :: 0 <= i < |ScopesOf(subject)| ==>
      var scope := ScopesOf(subject)[i];
      scope in s.versions ==>
        s.versions[scope].value != t &&
        (s.versions[scope].value > t ==> s.versions[scope].expiresAt >= time + VersionTtlMs(s.ttl))
  }

  ghost predicate VersionsOk(s: State)
  {
    forall scope :: scope in s.versions ==> 0 < s.versions[scope].value <= s.clock
  }

  ghost predicate KeyOk(key: CacheKey, t: nat)
  {
    |key.versions| == |ScopesOf(key.subject)| && AllBelow(key.versions, t)
  }

  ghost predicate SourceOk(s: State, source: Snapshot)
  {
    0 < source.startedAt <= s.clock && source.startTime <= s.now
  }

  ghost predicate LoadOk(s: State, load: Load)
  {
    SourceOk(s, load.source) && KeyOk(load.key, load.source.startedAt) &&
    BumpedNoSooner(s, load.key.subject, load.source.startedAt, load.source.startTime)
  }

  /** `expiresAt - EntryTtlMs` is when the entry was stored. */
  ghost predicate EntryOk(s: State, key: CacheKey, entry: Cell<Snapshot>)
  {
    SourceOk(s, entry.value) && KeyOk(key, entry.value.startedAt) && entry.expiresAt - EntryTtlMs(s.ttl) <= s.now &&
    BumpedNoSooner(s, key.subject, entry.value.startedAt, entry.expiresAt - EntryTtlMs(s.ttl))
  }

  ghost predicate CallOk(s: State, c: Call)
  {
    && |c.floor| == |ScopesOf(c.subject)|
    && (forall i :: 0 <= i < |c.floor| ==> c.floor[i] <= LastBump(s, ScopesOf(c.subject)[i]))
    && match c.phase {
         case Start => true
         case HaveVersions(versions) => |versions| == |c.floor| && AllBelow(versions, s.clock + 1)
         case Checked(versions) =>
           && |versions| == |c.floor| && AllBelow(versions, s.clock + 1)
           && var flight := (c.instance, CacheKey(c.subject, versions));
              (flight in s.inFlight && s.inFlight[flight] in s.loads ==>
                AllBelow(c.floor, s.loads[s.inFlight[flight]].source.startedAt))
         case Waiting(load) => load in s.loads && AllBelow(c.floor, s.loads[load].source.startedAt)
         case Direct(source) => AllBelow(c.floor, source.startedAt)
         case Done(value) => AllBelow(c.floor, value.startedAt)
         case Failed => true
       }
  }

  ghost predicate FlightsOk(s: State)
  {
    && (forall k :: k in s.inFlight ==>
          s.inFlight[k] in s.loads && s.loads[s.inFlight[k]].instance == k.0 && s.loads[s.inFlight[k]].key == k.1)
    && (forall l :: l in s.loads ==>
          s.loads[l].source.startedAt == l && 0 < l &&
          (s.loads[l].phase.Running? ==>
             var flight := (s.loads[l].instance, s.loads[l].key); flight in s.inFlight && s.inFlight[flight] == l))
  }

  ghost predicate Inv(s: State)
  {
    && VersionsOk(s)
    && FlightsOk(s)
    && (forall l :: l in s.loads ==> LoadOk(s, s.loads[l]))
    && (forall k :: k in s.entries ==> EntryOk(s, k, s.entries[k]))
    && (forall id :: id in s.calls ==> CallOk(s, s.calls[id]))
  }

  /**
   The heart of the protocol. If the version vector a load was started under is still current, and less than a
   version lifetime has passed since its start, then no scope was bumped after the load started: a later bump
   would still be visible, and its token is new.
   */
  lemma MatchMeansFresh(s: State, key: CacheKey, t: nat, time: int)
    requires VersionsOk(s) && KeyOk(key, t)
    requires BumpedNoSooner(s, key.subject, t, time)
    requires CurrentVersions(s, key.subject) == key.versions
    requires s.now < time + VersionTtlMs(s.ttl)
    requires 0 < t
    ensures NotBumpedSince(s, key.subject, t)
  {
    forall i | 0 <= i < |ScopesOf(key.subject)| ensures LastBump(s, ScopesOf(key.subject)[i]) < t {
      assert CurrentVersions(s, key.subject)[i] == key.versions[i] == Current(s, ScopesOf(key.subject)[i]);
    }
  }

  /** What a match says about a call: nothing it had to see is missing from the load. */
  lemma FloorBelow(s: State, c: Call, t: nat)
    requires CallOk(s, c) && NotBumpedSince(s, c.subject, t)
    ensures AllBelow(c.floor, t)
  {
  }

  /** Everything one event leaves alone: bumps are new and unexpired, loads keep their source. */
  ghost predicate Later(s: State, s': State)
  {
    && s'.ttl == s.ttl && s'.clock == s.clock + 1 && s'.now >= s.now
    && (forall scope :: scope in s.versions ==> scope in s'.versions)
    && (forall scope :: scope in s'.versions ==>
          (scope in s.versions && s'.versions[scope] == s.versions[scope]) ||
          s'.versions[scope] == Cell(s'.clock, s.now + VersionTtlMs(s.ttl)))
    && (forall l :: l in s.loads ==> l in s'.loads && s'.loads[l].(phase := Running) == s.loads[l].(phase := Running))
    && (forall k :: k in s'.inFlight ==>
          (k in s.inFlight && s'.inFlight[k] == s.inFlight[k]) || s'.inFlight[k] == s'.clock)
  }

  lemma StepIsLater(s: State, e: Event)
    requires (forall l :: l in s.loads ==> l <= s.clock) && Step(s, e).Some?
    ensures Later(s, Step(s, e).value)
  {
    match e
    case LoadVersioned(_) =>
    case WriteStable(_, _) =>
    case WriteFails(_) =>
    case LoaderRejects(_) =>
    case _ => assert Step(s, e).value.loads == s.loads;
  }

  lemma LoadStays(s: State, s': State, load: Load)
    requires Later(s, s') && LoadOk(s, load)
    ensures LoadOk(s', load)
  {
  }

  lemma EntryStays(s: State, s': State, key: CacheKey, entry: Cell<Snapshot>)
    requires Later(s, s') && EntryOk(s, key, entry)
    ensures EntryOk(s', key, entry)
  {
  }

  lemma CallStays(s: State, s': State, c: Call)
    requires Later(s, s') && Inv(s) && FlightsOk(s') && CallOk(s, c)
    ensures CallOk(s', c)
  {
    assert forall i :: 0 <= i < |c.floor| ==> c.floor[i] <= LastBump(s, ScopesOf(c.subject)[i]) <= s.clock;
  }

  lemma FlightsStay(s: State, e: Event)
    requires FlightsOk(s) && (forall l :: l in s.loads ==> l <= s.clock) && Step(s, e).Some?
    ensures FlightsOk(Step(s, e).value)
  {
    if e.WriteStable? {
      WriteFlights(s, e.load, Step(s, e).value.loads[e.load].phase);
    } else if e.WriteFails? {
      WriteFlights(s, e.load, Settled(false));
    } else if e.LoaderRejects? {
      WriteFlights(s, e.load, Rejected);
    } else if e.LoadVersioned? {
      LoadVersionedFlights(s, e.id);
    }
  }

  lemma LoadVersionedFlights(s: State, id: nat)
    requires FlightsOk(s) && (forall l :: l in s.loads ==> l <= s.clock) && Enabled(s, LoadVersioned(id))
    ensures FlightsOk(Step(s, LoadVersioned(id)).value)
  {
    var c, s' := s.calls[id], Step(s, LoadVersioned(id)).value;
    var key := CacheKey(c.subject, c.phase.versions);
    if (c.instance, key) in s.inFlight {
      assert s'.inFlight == s.inFlight && s'.loads == s.loads;
    } else {
      NewFlight(s, s', c.instance, key);
    }
  }

  lemma NewFlight(s: State, s': State, instance: nat, key: CacheKey)
    requires FlightsOk(s) && (forall l :: l in s.loads ==> l <= s.clock) && (instance, key) !in s.inFlight
    requires s'.loads == s.loads[s.clock + 1 := Load(instance, key, StartHere(s), Running)]
    requires s'.inFlight == s.inFlight[(instance, key) := s.clock + 1]
    ensures FlightsOk(s')
  {
  }

  lemma VersionsStay(s: State, e: Event)
    requires VersionsOk(s) && Step(s, e).Some?
    ensures VersionsOk(Step(s, e).value)
  {
  }

  lemma WriteFlights(s: State, load: nat, phase: LoadPhase)
    requires FlightsOk(s) && load in s.loads && !phase.Running?
    ensures FlightsOk(s.(loads := s.loads[load := s.loads[load].(phase := phase)]))
  {
  }

  lemma LoadsStay(s: State, e: Event)
    requires Inv(s) && Step(s, e).Some?
    ensures var s' := Step(s, e).value; forall l :: l in s'.loads ==> LoadOk(s', s'.loads[l])
  {
    var s' := Step(s, e).value;
    StepIsLater(s, e);
    forall l | l in s'.loads ensures LoadOk(s', s'.loads[l]) {
      if l in s.loads {
        LoadStays(s, s', s.loads[l]);
      } else {
        assert e.LoadVersioned? && CallOk(s, s.calls[e.id]);
      }
    }
  }

  lemma OnlyWritesAddEntries(s: State, e: Event, k: CacheKey)
    requires Step(s, e).Some? && !e.WriteStable? && k in Step(s, e).value.entries
    ensures k in s.entries && Step(s, e).value.entries[k] == s.entries[k]
  {
  }

  lemma WriteKeepsEntries(s: State, load: nat, replyLost: bool)
    requires Inv(s) && Prompt(s) && Enabled(s, WriteStable(load, replyLost))
    ensures var s' := Step(s, WriteStable(load, replyLost)).value; forall k :: k in s'.entries ==> EntryOk(s', k, s'.entries[k])
  {
    var s' := Step(s, WriteStable(load, replyLost)).value;
    var l := s.loads[load];
    assert (l.instance, l.key) in s.inFlight && LoadOk(s, l);
    forall k | k in s'.entries ensures EntryOk(s', k, s'.entries[k]) {
      if k in s.entries && s'.entries[k] == s.entries[k] {
        assert EntryOk(s, k, s.entries[k]);
      } else {
        MatchMeansFresh(s, l.key, l.source.startedAt, l.source.startTime);
      }
    }
  }

  lemma EntriesStay(s: State, e: Event)
    requires Inv(s) && Prompt(s) && Step(s, e).Some?
    ensures var s' := Step(s, e).value; forall k :: k in s'.entries ==> EntryOk(s', k, s'.entries[k])
  {
    if e.WriteStable? {
      WriteKeepsEntries(s, e.load, e.replyLost);
    } else {
      hide Step, Enabled, Effect;
      var s' := Step(s, e).value;
      StepIsLater(s, e);
      forall k | k in s'.entries ensures EntryOk(s', k, s'.entries[k]) {
        OnlyWritesAddEntries(s, e, k);
        EntryStays(s, s', k, s.entries[k]);
      }
    }
  }

  /** A live entry found under the current versions postdates every bump of its scopes. */
  lemma HitIsFresh(s: State, key: CacheKey)
    requires Inv(s) && CurrentVersions(s, key.subject) == key.versions
    requires Get(s.entries, key, s.now).Some?
    ensures NotBumpedSince(s, key.subject, s.entries[key].value.startedAt)
  {
    assert EntryOk(s, key, s.entries[key]);
    MatchMeansFresh(s, key, s.entries[key].value.startedAt, s.entries[key].expiresAt - EntryTtlMs(s.ttl));
  }

  /** So does a load still in flight under the current versions. */
  lemma FlightIsFresh(s: State, flight: (nat, CacheKey))
    requires Inv(s) && Prompt(s) && CurrentVersions(s, flight.1.subject) == flight.1.versions
    requires flight in s.inFlight
    ensures s.inFlight[flight] in s.loads
    ensures NotBumpedSince(s, flight.1.subject, s.loads[s.inFlight[flight]].source.startedAt)
  {
    var load := s.loads[s.inFlight[flight]];
    assert LoadOk(s, load) && load.key == flight.1;
    MatchMeansFresh(s, load.key, load.source.startedAt, load.source.startTime);
  }

  lemma FloorIsPast(s: State, c: Call)
    requires VersionsOk(s) && CallOk(s, c)
    ensures AllBelow(c.floor, s.clock + 1)
  {
    forall i | 0 <= i < |c.floor| ensures c.floor[i] < s.clock + 1 {
      assert c.floor[i] <= LastBump(s, ScopesOf(c.subject)[i]) <= s.clock;
    }
  }

  /** What a matching read tells the call about the entry and the flight under its key. */
  lemma MatchCoversFloor(s: State, id: nat)
    requires Inv(s) && Prompt(s) && Phase(s, id).HaveVersions?
    requires CurrentVersions(s, s.calls[id].subject) == s.calls[id].phase.versions
    ensures var c := s.calls[id]; var key := CacheKey(c.subject, c.phase.versions);
            && (Get(s.entries, key, s.now).Some? ==> AllBelow(c.floor, s.entries[key].value.startedAt))
            && ((c.instance, key) in s.inFlight ==>
                  && s.inFlight[(c.instance, key)] in s.loads
                  && AllBelow(c.floor, s.loads[s.inFlight[(c.instance, key)]].source.startedAt))
  {
    var c := s.calls[id];
    var key := CacheKey(c.subject, c.phase.versions);
    assert CallOk(s, c);
    if Get(s.entries, key, s.now).Some? {
      HitIsFresh(s, key);
      FloorBelow(s, c, s.entries[key].value.startedAt);
    }
    if (c.instance, key) in s.inFlight {
      FlightIsFresh(s, (c.instance, key));
      FloorBelow(s, c, s.loads[s.inFlight[(c.instance, key)]].source.startedAt);
    }
  }

  lemma CallFacts(s: State, id: nat)
    requires Inv(s) && id in s.calls
    ensures CallOk(s, s.calls[id]) && AllBelow(s.calls[id].floor, s.clock + 1)
  {
    FloorIsPast(s, s.calls[id]);
  }

  /** The three ways a stable read can end: try again, return a fresh hit, or go on to the loader. */
  lemma ReadIsFresh(s: State, s': State, id: nat, corrupt: bool)
    requires Inv(s) && Prompt(s) && Phase(s, id).HaveVersions?
    requires s' == s.(calls := s'.calls, clock := s.clock + 1)
    ensures CallOk(s', AfterRead(s, s.calls[id], corrupt))
  {
    hide Inv, Prompt;
    CallFacts(s, id);
    if CurrentVersions(s, s.calls[id].subject) == s.calls[id].phase.versions {
      MatchCoversFloor(s, id);
    }
  }

  lemma ReadMovesWell(s: State, id: nat, corrupt: bool)
    requires Inv(s) && Prompt(s) && Enabled(s, ReadStable(id, corrupt))
    ensures var s' := Step(s, ReadStable(id, corrupt)).value; CallOk(s', s'.calls[id])
  {
    hide Inv, CallOk, Prompt;
    ReadIsFresh(s, Step(s, ReadStable(id, corrupt)).value, id, corrupt);
  }

  lemma LoadVersionedMovesWell(s: State, id: nat)
    requires Inv(s) && Enabled(s, LoadVersioned(id))
    ensures var s' := Step(s, LoadVersioned(id)).value; CallOk(s', s'.calls[id])
  {
    CallFacts(s, id);
  }

  lemma ResumeMovesWell(s: State, id: nat)
    requires VersionsOk(s) && Enabled(s, Resume(id)) && CallOk(s, s.calls[id])
    ensures var s' := Step(s, Resume(id)).value; CallOk(s', s'.calls[id])
  {
    FloorIsPast(s, s.calls[id]);
  }

  lemma OtherMovesWell(s: State, e: Event, id: nat)
    requires Inv(s) && Step(s, e).Some? && id in s.calls && Step(s, e).value.calls[id] != s.calls[id]
    requires !e.ReadStable? && !e.LoadVersioned? && !e.Resume?
    ensures var s' := Step(s, e).value; CallOk(s', s'.calls[id])
  {
    assert CallOk(s, s.calls[id]);
    FloorIsPast(s, s.calls[id]);
    assert Step(s, e).value.versions == s.versions;
  }

  lemma MovedIsOwn(s: State, e: Event, id: nat)
    requires Step(s, e).Some? && id in s.calls && Step(s, e).value.calls[id] != s.calls[id]
    ensures e.ReadStable? || e.LoadVersioned? || e.Resume? ==> e.id == id && Enabled(s, e)
  {
  }

  /** The call an event moves is still consistent in the phase it moves to. */
  lemma MovedCallOk(s: State, e: Event, id: nat)
    requires Inv(s) && Prompt(s) && Step(s, e).Some?
    requires id in s.calls && Step(s, e).value.calls[id] != s.calls[id]
    ensures var s' := Step(s, e).value; CallOk(s', s'.calls[id])
  {
    assert CallOk(s, s.calls[id]) && VersionsOk(s);
    MovedIsOwn(s, e, id);
    hide Inv, Prompt, CallOk, VersionsOk, Step, Enabled, Effect;
    match e
    case ReadStable(_, corrupt) => ReadMovesWell(s, id, corrupt);
    case LoadVersioned(_) => LoadVersionedMovesWell(s, id);
    case Resume(_) => ResumeMovesWell(s, id);
    case _ => OtherMovesWell(s, e, id);
  }

  lemma NewCallOk(s: State, e: Event, id: nat)
    requires Step(s, e).Some? && id !in s.calls && id in Step(s, e).value.calls && VersionsOk(s)
    ensures var s' := Step(s, e).value; CallOk(s', s'.calls[id])
  {
    assert e.Begin? && Step(s, e).value.versions == s.versions;
  }

  lemma CallsStay(s: State, e: Event)
    requires Inv(s) && Prompt(s) && Step(s, e).Some?
    ensures var s' := Step(s, e).value; forall id :: id in s'.calls ==> CallOk(s', s'.calls[id])
  {
    var s' := Step(s, e).value;
    StepIsLater(s, e);
    FlightsStay(s, e);
    hide Step, Enabled, Effect, Prompt, CallOk, FlightsOk, Later;
    forall id | id in s'.calls ensures CallOk(s', s'.calls[id]) {
      if id !in s.calls {
        NewCallOk(s, e, id);
      } else if s'.calls[id] == s.calls[id] {
        CallStays(s, s', s.calls[id]);
      } else {
        MovedCallOk(s, e, id);
      }
    }
  }

  lemma StepKeepsInv(s: State, e: Event)
    requires Inv(s) && Prompt(s) && Step(s, e).Some?
    ensures Inv(Step(s, e).value)
  {
    FlightsStay(s, e);
    VersionsStay(s, e);
    LoadsStay(s, e);
    EntriesStay(s, e);
    CallsStay(s, e);
  }

  /** Only the passing of time can make a load slow. */
  lemma PromptUntilTick(s: State, e: Event)
    requires Inv(s) && Prompt(s) && Step(s, e).Some? && !e.Tick?
    ensures Prompt(Step(s, e).value)
  {
    StepIsLater(s, e);
    hide Inv, LoadOk, EntryOk, CallOk;
  }

  // ---------- theorems over runs ----------

  lemma {:induction false} RunKeepsInv(s0: State, es: seq<Event>, n: nat)
    requires Inv(s0) && Run(Step, s0, es).Some? && PromptRun(s0, es) && n <= |es|
    ensures Inv(At(Step, s0, es, n))
    ensures At(Step, s0, es, n).clock == s0.clock + n
  {
    if n == 0 {
      AtEnds(Step, s0, es);
    } else {
      RunKeepsInv(s0, es, n - 1);
      StepAt(Step, s0, es, n - 1);
      assert Prompt(At(Step, s0, es, n - 1));
      StepKeepsInv(At(Step, s0, es, n - 1), es[n - 1]);
    }
  }

  lemma LastBumpGrows(s: State, e: Event, scope: Scope)
    requires VersionsOk(s) && Step(s, e).Some?
    ensures LastBump(Step(s, e).value, scope) >= LastBump(s, scope)
    ensures e == Bump(scope) ==> LastBump(Step(s, e).value, scope) == s.clock + 1
  {
  }

  /** Once bumped, a scope's last bump never moves back. */
  lemma {:induction false} BumpIsRemembered(s0: State, es: seq<Event>, i: nat, n: nat, scope: Scope)
    requires Inv(s0) && s0.clock == 0 && Run(Step, s0, es).Some? && PromptRun(s0, es) && i < n <= |es|
    requires es[i] == Bump(scope)
    ensures LastBump(At(Step, s0, es, n), scope) >= i + 1
    decreases n
  {
    RunKeepsInv(s0, es, n - 1);
    StepAt(Step, s0, es, n - 1);
    hide Step;
    LastBumpGrows(At(Step, s0, es, n - 1), es[n - 1], scope);
    if i + 1 < n {
      BumpIsRemembered(s0, es, i, n - 1, scope);
    }
  }

  /** A call keeps its subject and what it had to see when it began. */
  ghost predicate HasFloor(s: State, id: nat, subject: Subject, floor: seq<nat>)
  {
    id in s.calls && s.calls[id].subject == subject && s.calls[id].floor == floor
  }

  lemma HasFloorStays(s: State, e: Event, id: nat, subject: Subject, floor: seq<nat>)
    requires HasFloor(s, id, subject, floor) && Step(s, e).Some?
    ensures HasFloor(Step(s, e).value, id, subject, floor)
  {
  }

  lemma BeginSetsFloor(s: State, e: Event)
    requires Step(s, e).Some? && e.Begin?
    ensures HasFloor(Step(s, e).value, e.id, e.subject, LastBumps(s, e.subject))
  {
  }

  lemma FloorIsKept(s0: State, es: seq<Event>, j: nat, n: nat, id: nat, subject: Subject)
    requires Run(Step, s0, es).Some? && j < n <= |es|
    requires es[j].Begin? && es[j].id == id && es[j].subject == subject
    ensures HasFloor(At(Step, s0, es, n), id, subject, LastBumps(At(Step, s0, es, j), subject))
  {
    hide Step, HasFloor, LastBumps;
    StepAt(Step, s0, es, j);
    BeginSetsFloor(At(Step, s0, es, j), es[j]);
    var floor := LastBumps(At(Step, s0, es, j), subject);
    forall s, e | HasFloor(s, id, subject, floor) && Step(s, e).Some?
      ensures HasFloor(Step(s, e).value, id, subject, floor)
    {
      HasFloorStays(s, e, id, subject, floor);
    }
    Always(Step, s => HasFloor(s, id, subject, floor), s0, es, j + 1, n);
  }

  lemma CallOkAt(s0: State, es: seq<Event>, n: nat, id: nat)
    requires Inv(s0) && Run(Step, s0, es).Some? && PromptRun(s0, es) && n <= |es|
    requires id in At(Step, s0, es, n).calls
    ensures CallOk(At(Step, s0, es, n), At(Step, s0, es, n).calls[id])
  {
    RunKeepsInv(s0, es, n);
  }

  /** Who has to be told of an invalidation: a store's users, one user of a store, or one visitor. */
  predicate Concerns(scope: Scope, subject: Subject)
  {
    match scope
    case Chat(store) => subject.StoreInitial? && subject.store == store
    case NotificationStore(store) => subject.StoreInitial? && subject.store == store
    case NotificationUser(store, user) => subject.StoreInitial? && subject.store == store && subject.user == user
    case Ecommerce(store, visitor) => subject.EcommerceInitial? && subject.store == store && subject.visitor == visitor
  }

  lemma ConcernsAreListed(scope: Scope, subject: Subject)
    ensures scope in ScopesOf(subject) <==> Concerns(scope, subject)
  {
    match subject
    case StoreInitial(store, user, _) =>
      assert ScopesOf(subject)[0] == Chat(store) && ScopesOf(subject)[1] == NotificationStore(store);
      assert ScopesOf(subject)[2] == NotificationUser(store, user);
    case EcommerceInitial(store, visitor) => assert ScopesOf(subject)[0] == Ecommerce(store, visitor);
  }

  /**
   Freshness. Take any run in which loads are prompt. If a scope that concerns a call's subject was bumped (event `i`)
   before the call began (event `j`), then whatever the call returns - a hit, a shared load, its own load or
   the uncached fallback - was produced by a loader that started after that bump.
   */
  lemma ReturnedValueIsFresh(
    ttl: nat, t0: int, es: seq<Event>, i: nat, j: nat, k: nat, id: nat, subject: Subject, scope: Scope)
    requires Run(Step, Init(ttl, t0), es).Some? && PromptRun(Init(ttl, t0), es)
    requires i < j < k <= |es|
    requires es[i] == Bump(scope) && Concerns(scope, subject)
    requires es[j].Begin? && es[j].id == id && es[j].subject == subject
    requires Phase(At(Step, Init(ttl, t0), es, k), id).Done?
    ensures Phase(At(Step, Init(ttl, t0), es, k), id).value.startedAt > i + 1
  {
    hide Step, Run, At;
    var s0 := Init(ttl, t0);
    var s := At(Step, s0, es, k);
    ConcernsAreListed(scope, subject);
    BumpIsRemembered(s0, es, i, j, scope);
    FloorIsKept(s0, es, j, k, id, subject);
    CallOkAt(s0, es, k, id);
    var m :| 0 <= m < |ScopesOf(subject)| && ScopesOf(subject)[m] == scope;
    assert CallOk(s, s.calls[id]) && s.calls[id].floor[m] >= i + 1;
  }

  // ---------- the cache is used ----------

  /** A call that finds its versions unchanged will be answered with `value`. */
  ghost predicate Cached(s: State, subject: Subject, value: Snapshot)
  {
    Get(s.entries, CacheKey(subject, CurrentVersions(s, subject)), s.now) == Some(value)
  }

  /** Something expires between `now` and `ms` later. */
  predicate RunsOut(expiresAt: int, now: int, ms: nat) { now < expiresAt <= now + ms }

  /** What can take a cached snapshot away: an invalidation that concerns it, a removal, a new load, or time. */
  ghost predicate Disturbs(s: State, e: Event, subject: Subject)
  {
    match e
    case Tick(ms) =>
      || (exists key :: key in s.entries && key.subject == subject && RunsOut(s.entries[key].expiresAt, s.now, ms))
      || (exists scope :: scope in s.versions && Concerns(scope, subject) && RunsOut(s.versions[scope].expiresAt, s.now, ms))
    case Bump(scope) => Concerns(scope, subject)
    case Evict(key) => key.subject == subject
    case WriteStable(load, _) => load in s.loads && s.loads[load].key.subject == subject
    case _ => false
  }

  lemma SameVersionsAfter(s: State, e: Event, subject: Subject)
    requires Step(s, e).Some? && !Disturbs(s, e, subject)
    ensures CurrentVersions(Step(s, e).value, subject) == CurrentVersions(s, subject)
  {
    var t := Step(s, e).value;
    forall i | 0 <= i < |ScopesOf(subject)|
      ensures Current(t, ScopesOf(subject)[i]) == Current(s, ScopesOf(subject)[i])
    {
      var scope := ScopesOf(subject)[i];
      ConcernsAreListed(scope, subject);
      if e.Tick? && scope in s.versions {
        assert !RunsOut(s.versions[scope].expiresAt, s.now, e.ms);
      }
    }
  }

  lemma CachedStays(s: State, e: Event, subject: Subject, value: Snapshot)
    requires Step(s, e).Some? && !Disturbs(s, e, subject) && Cached(s, subject, value)
    ensures Cached(Step(s, e).value, subject, value)
  {
    SameVersionsAfter(s, e, subject);
    var key := CacheKey(subject, CurrentVersions(s, subject));
    if e.Tick? {
      assert !RunsOut(s.entries[key].expiresAt, s.now, e.ms);
    }
  }

  /** Until something disturbs it, a cached snapshot is what a call gets that nobody interrupts, and nothing is loaded. */
  lemma {:induction false} CachedUntilDisturbed(
    s0: State, es: seq<Event>, n: nat, subject: Subject, value: Snapshot, id: nat, instance: nat)
    returns (fs: seq<Event>)
    requires Run(Step, s0, es).Some? && n <= |es| && Cached(At(Step, s0, es, n), subject, value)
    requires forall k :: n <= k < |es| ==> !Disturbs(At(Step, s0, es, k), es[k], subject)
    requires Run(Step, s0, es).value.ttl > 0 && id !in Run(Step, s0, es).value.calls
    ensures fs == es + [Begin(id, instance, subject, true), ReadVersions(id), ReadStable(id, false)]
    ensures Run(Step, s0, fs).Some? && Phase(Run(Step, s0, fs).value, id) == Done(value)
    ensures Run(Step, s0, fs).value.loads == Run(Step, s0, es).value.loads
  {
    StillCached(s0, es, n, |es|, subject, value);
    AtEnds(Step, s0, es);
    hide Run, At, Step, Cached;
    fs := CallHits(s0, es, Run(Step, s0, es).value, subject, value, id, instance);
  }

  lemma CallHits(s0: State, es: seq<Event>, s: State, subject: Subject, value: Snapshot, id: nat, instance: nat)
    returns (fs: seq<Event>)
    requires Run(Step, s0, es) == Some(s) && Cached(s, subject, value) && s.ttl > 0 && id !in s.calls
    ensures fs == es + [Begin(id, instance, subject, true), ReadVersions(id), ReadStable(id, false)]
    ensures Run(Step, s0, fs).Some? && Phase(Run(Step, s0, fs).value, id) == Done(value)
    ensures Run(Step, s0, fs).value.loads == s.loads
  {
    hide Run;
    var versions := CurrentVersions(s, subject);
    var t;
    fs, t := Extend(Step, s0, es, Begin(id, instance, subject, true));
    assert CurrentVersions(t, subject) == versions;
    fs, t := Extend(Step, s0, fs, ReadVersions(id));
    assert CurrentVersions(t, subject) == versions;
    fs, t := Extend(Step, s0, fs, ReadStable(id, false));
  }

  lemma {:induction false} StillCached(s0: State, es: seq<Event>, n: nat, m: nat, subject: Subject, value: Snapshot)
    requires Run(Step, s0, es).Some? && n <= m <= |es| && Cached(At(Step, s0, es, n), subject, value)
    requires forall k :: n <= k < m ==> !Disturbs(At(Step, s0, es, k), es[k], subject)
    ensures Cached(At(Step, s0, es, m), subject, value)
    decreases m
  {
    hide Run, At, Step, Cached, Disturbs;
    if n < m {
      StillCached(s0, es, n, m - 1, subject, value);
      StepAt(Step, s0, es, m - 1);
      CachedStays(At(Step, s0, es, m - 1), es[m - 1], subject, value);
    }
  }

  /** A call that finds nothing cached and nothing in flight, and is not interrupted: it loads once, and caches that. */
  lemma MissFillsTheCache(s0: State, es: seq<Event>, s: State, subject: Subject, id: nat, instance: nat)
    returns (fs: seq<Event>, t: State)
    requires Run(Step, s0, es) == Some(s) && s.ttl > 0 && id !in s.calls
    requires var key := CacheKey(subject, CurrentVersions(s, subject));
             Get(s.entries, key, s.now).None? && (instance, key) !in s.inFlight
    ensures fs == es + [Begin(id, instance, subject, true), ReadVersions(id), ReadStable(id, false), LoadVersioned(id),
                        WriteStable(s.clock + 4, false), Resume(id)]
    ensures Run(Step, s0, fs) == Some(t)
    ensures var value := Snapshot(s.clock + 4, s.now);
            && Phase(t, id) == Done(value) && Cached(t, subject, value)
            && t.entries[CacheKey(subject, CurrentVersions(t, subject))].expiresAt == s.now + 1000 * s.ttl
  {
    var key := CacheKey(subject, CurrentVersions(s, subject));
    var es1, s1 := MissIsChecked(s0, es, s, subject, id, instance);
    fs, t := MissLoads(s0, es1, s1, key, id, instance);
  }

  lemma MissIsChecked(s0: State, es: seq<Event>, s: State, subject: Subject, id: nat, instance: nat)
    returns (fs: seq<Event>, t: State)
    requires Run(Step, s0, es) == Some(s) && s.ttl > 0 && id !in s.calls
    requires Get(s.entries, CacheKey(subject, CurrentVersions(s, subject)), s.now).None?
    ensures fs == es + [Begin(id, instance, subject, true), ReadVersions(id), ReadStable(id, false)]
    ensures Run(Step, s0, fs) == Some(t) && t == s.(calls := t.calls, clock := s.clock + 3) && id in t.calls
    ensures CurrentVersions(t, subject) == CurrentVersions(s, subject)
    ensures t.calls[id].instance == instance && t.calls[id].subject == subject
    ensures t.calls[id].phase == Checked(CurrentVersions(s, subject))
  {
    hide Run;
    var versions := CurrentVersions(s, subject);
    fs, t := Extend(Step, s0, es, Begin(id, instance, subject, true));
    assert CurrentVersions(t, subject) == versions;
    fs, t := Extend(Step, s0, fs, ReadVersions(id));
    assert CurrentVersions(t, subject) == versions;
    fs, t := Extend(Step, s0, fs, ReadStable(id, false));
    assert CurrentVersions(t, subject) == versions;
  }

  lemma MissLoads(s0: State, es: seq<Event>, s: State, key: CacheKey, id: nat, instance: nat)
    returns (fs: seq<Event>, t: State)
    requires Run(Step, s0, es) == Some(s) && s.ttl > 0 && (instance, key) !in s.inFlight
    requires id in s.calls && s.calls[id].instance == instance && s.calls[id].subject == key.subject
    requires s.calls[id].phase == Checked(key.versions) && CurrentVersions(s, key.subject) == key.versions
    ensures fs == es + [LoadVersioned(id), WriteStable(s.clock + 1, false), Resume(id)]
    ensures Run(Step, s0, fs) == Some(t)
    ensures var value := Snapshot(s.clock + 1, s.now);
            && Phase(t, id) == Done(value) && Cached(t, key.subject, value)
            && key in t.entries && t.entries[key].expiresAt == s.now + 1000 * s.ttl
            && CurrentVersions(t, key.subject) == key.versions
  {
    hide Run;
    var value := Snapshot(s.clock + 1, s.now);
    fs, t := Extend(Step, s0, es, LoadVersioned(id));
    assert t.loads[s.clock + 1] == Load(instance, key, value, Running) && Phase(t, id) == Waiting(s.clock + 1);
    assert CurrentVersions(t, key.subject) == key.versions;
    hide Step, CurrentVersions, Cached;
    fs, t := LoadIsStored(s0, fs, t, id);
  }

  /** A load that nobody overtook is stored, and its waiter gets the value. */
  lemma LoadIsStored(s0: State, es: seq<Event>, s: State, id: nat) returns (fs: seq<Event>, t: State)
    requires Run(Step, s0, es) == Some(s) && s.ttl > 0 && Phase(s, id).Waiting?
    requires var load := s.calls[id].phase.load;
             && load in s.loads && s.loads[load].phase.Running?
             && CurrentVersions(s, s.loads[load].key.subject) == s.loads[load].key.versions
    ensures fs == es + [WriteStable(s.calls[id].phase.load, false), Resume(id)] && Run(Step, s0, fs) == Some(t)
    ensures var Load(_, key, value, _) := s.loads[s.calls[id].phase.load];
            && Phase(t, id) == Done(value) && Cached(t, key.subject, value)
            && key in t.entries && t.entries[key].expiresAt == s.now + 1000 * s.ttl
            && CurrentVersions(t, key.subject) == key.versions
  {
    hide Run;
    var load := s.calls[id].phase.load;
    var key := s.loads[load].key;
    fs, t := Extend(Step, s0, es, WriteStable(load, false));
    assert CurrentVersions(t, key.subject) == key.versions;
    fs, t := Extend(Step, s0, fs, Resume(id));
    assert CurrentVersions(t, key.subject) == key.versions;
  }

  // ---------- three attempts ----------

  /** An attempt comes to nothing: the call's versions have changed when it reads the entry, or when its load is written. */
  predicate Spoils(s: State, e: Event, id: nat)
  {
    || (e.ReadStable? && e.id == id && Phase(s, id).HaveVersions? &&
        CurrentVersions(s, s.calls[id].subject) != s.calls[id].phase.versions)
    || (e == Resume(id) && Phase(s, id).Waiting? && s.calls[id].phase.load in s.loads &&
        s.loads[s.calls[id].phase.load].phase == Settled(true))
  }

  ghost function SpoiledAttempts(s0: State, es: seq<Event>, j: nat, n: nat, id: nat): nat
    requires Run(Step, s0, es).Some? && j <= n <= |es|
    decreases n
  {
    if n == j then 0
    else SpoiledAttempts(s0, es, j, n - 1, id) + if Spoils(At(Step, s0, es, n - 1), es[n - 1], id) then 1 else 0
  }

  /** Where a call stands after so many spoiled attempts: still trying, unless it has made three, or Redis has failed it. */
  predicate Tried(c: Call, spoiled: nat, redisFailed: bool)
  {
    && c.attempt == spoiled <= 3
    && (c.phase.Start? || c.phase.HaveVersions? || c.phase.Checked? || c.phase.Waiting? ==> spoiled < 3 && !redisFailed)
    && (c.phase.Direct? ==> spoiled == 3 || redisFailed)
  }

  lemma TriedStays(s: State, e: Event, id: nat, spoiled: nat, redisFailed: bool)
    requires Step(s, e).Some? && id in s.calls && Tried(s.calls[id], spoiled, redisFailed)
    ensures id in Step(s, e).value.calls
    ensures Tried(Step(s, e).value.calls[id], spoiled + (if Spoils(s, e, id) then 1 else 0),
                  redisFailed || e == RedisFails(id))
  {
    hide CurrentVersions;
  }

  /**
   A call that finds the cache up runs the loader without it exactly when Redis has failed it or three attempts have come to
   nothing, and never makes a fourth.
   */
  lemma {:induction false} ThreeAttempts(s0: State, es: seq<Event>, j: nat, n: nat, id: nat)
    requires Run(Step, s0, es).Some? && j < n <= |es| && es[j].Begin? && es[j].id == id && es[j].cacheUp
    ensures id in At(Step, s0, es, n).calls
    ensures Tried(At(Step, s0, es, n).calls[id], SpoiledAttempts(s0, es, j + 1, n, id), RedisFails(id) in es[j + 1..n])
    decreases n
  {
    hide Run, At, Step, Spoils, Tried;
    StepAt(Step, s0, es, n - 1);
    if n == j + 1 {
      BeginsTrying(At(Step, s0, es, j), es[j]);
      assert es[j + 1..n] == [];
    } else {
      ThreeAttempts(s0, es, j, n - 1, id);
      assert es[j + 1..n] == es[j + 1..n - 1] + [es[n - 1]];
      TriedStays(At(Step, s0, es, n - 1), es[n - 1], id, SpoiledAttempts(s0, es, j + 1, n - 1, id),
                 RedisFails(id) in es[j + 1..n - 1]);
    }
  }

  lemma BeginsTrying(s: State, e: Event)
    requires Step(s, e).Some? && e.Begin? && e.cacheUp
    ensures e.id in Step(s, e).value.calls && Tried(Step(s, e).value.calls[e.id], 0, false)
  {
  }

  /** A load overtaken by a bump: its waiter tries again if the script's answer says so, and keeps the value if it is lost. */
  lemma OvertakenLoad(s0: State, es: seq<Event>, s: State, id: nat, replyLost: bool) returns (fs: seq<Event>, t: State)
    requires Run(Step, s0, es) == Some(s) && Phase(s, id).Waiting?
    requires var load := s.calls[id].phase.load;
             && load in s.loads && s.loads[load].phase.Running?
             && CurrentVersions(s, s.loads[load].key.subject) != s.loads[load].key.versions
    ensures fs == es + [WriteStable(s.calls[id].phase.load, replyLost), Resume(id)] && Run(Step, s0, fs) == Some(t)
    ensures t.entries == s.entries
    ensures if replyLost then Phase(t, id) == Done(s.loads[s.calls[id].phase.load].source)
            else Phase(t, id).Start? || Phase(t, id).Direct?
  {
    hide Run, CurrentVersions;
    fs, t := Extend(Step, s0, es, WriteStable(s.calls[id].phase.load, replyLost));
    fs, t := Extend(Step, s0, fs, Resume(id));
  }

  // ---------- failures ----------

  /** If Redis fails before the value is found, or is known to be down, the call runs its own loader and returns that. */
  lemma RedisFailureFallsBack(s0: State, es: seq<Event>, s: State, id: nat, instance: nat, subject: Subject)
    returns (fs: seq<Event>, t: State)
    requires Run(Step, s0, es) == Some(s)
    requires id !in s.calls || Phase(s, id).Start? || Phase(s, id).HaveVersions?
    ensures fs == es + [if id in s.calls then RedisFails(id) else Begin(id, instance, subject, false), DirectReturns(id)]
    ensures Run(Step, s0, fs) == Some(t) && Phase(t, id) == Done(Snapshot(s.clock + 1, s.now))
    ensures t.entries == s.entries && t.loads == s.loads
  {
    hide Run;
    fs, t := Extend(Step, s0, es, if id in s.calls then RedisFails(id) else Begin(id, instance, subject, false));
    fs, t := Extend(Step, s0, fs, DirectReturns(id));
  }

  /** A shared load whose write fails still serves its waiters; one whose loader rejects fails them. Neither stores anything. */
  lemma FailedWriteKeepsTheValue(s0: State, es: seq<Event>, s: State, id: nat, rejects: bool)
    returns (fs: seq<Event>, t: State)
    requires Run(Step, s0, es) == Some(s) && Phase(s, id).Waiting?
    requires var load := s.calls[id].phase.load; load in s.loads && s.loads[load].phase.Running?
    ensures var load := s.calls[id].phase.load;
            && fs == es + [if rejects then LoaderRejects(load) else WriteFails(load), Resume(id)]
            && Run(Step, s0, fs) == Some(t) && t.entries == s.entries
            && Phase(t, id) == if rejects then Failed else Done(s.loads[load].source)
  {
    hide Run;
    var load := s.calls[id].phase.load;
    fs, t := Extend(Step, s0, es, if rejects then LoaderRejects(load) else WriteFails(load));
    fs, t := Extend(Step, s0, fs, Resume(id));
  }

  /** An entry that cannot be parsed is a miss, and can be removed. */
  lemma CorruptEntryIsAMiss(s0: State, es: seq<Event>, s: State, id: nat) returns (fs: seq<Event>, t: State)
    requires Run(Step, s0, es) == Some(s) && Phase(s, id).HaveVersions?
    requires CurrentVersions(s, s.calls[id].subject) == s.calls[id].phase.versions
    ensures var key := CacheKey(s.calls[id].subject, s.calls[id].phase.versions);
            && fs == es + [ReadStable(id, true), Evict(key)] && Run(Step, s0, fs) == Some(t)
            && Phase(t, id) == Checked(key.versions) && t.entries == s.entries - {key}
  {
    hide Run;
    fs, t := Extend(Step, s0, es, ReadStable(id, true));
    fs, t := Extend(Step, s0, fs, Evict(CacheKey(s.calls[id].subject, s.calls[id].phase.versions)));
  }

  /** A load that has settled leaves the flights, so that the next call starts its own. */
  lemma SettledLoadIsReleased(s: State, flight: (nat, CacheKey))
    requires FlightsOk(s) && flight in s.inFlight && !s.loads[s.inFlight[flight]].phase.Running?
    ensures Step(s, Release(s.inFlight[flight])).Some?
    ensures var t := Step(s, Release(s.inFlight[flight])).value;
            flight !in t.inFlight && t.loads == s.loads && t.inFlight == s.inFlight - {flight}
  {
  }

  // ---------- nobody is given another's snapshot ----------

  /** The loader that produced `value` was started by a call for `subject`. */
  ghost predicate StartedFor(es: seq<Event>, calls: map<nat, Call>, value: Snapshot, subject: Subject)
  {
    0 < value.startedAt <= |es| && StartedBy(es[value.startedAt - 1], calls, subject)
  }

  ghost predicate StartedBy(e: Event, calls: map<nat, Call>, subject: Subject)
  {
    && (e.Begin? || e.RedisFails? || e.ReadStable? || e.LoadVersioned? || e.Resume?)
    && e.id in calls && calls[e.id].subject == subject
  }

  /** Every value a call has or waits for, and every entry, was loaded for its own subject. */
  ghost predicate Owned(es: seq<Event>, s: State)
  {
    && (forall l :: l in s.loads ==> StartedFor(es, s.calls, s.loads[l].source, s.loads[l].key.subject))
    && (forall k :: k in s.entries ==> StartedFor(es, s.calls, s.entries[k].value, k.subject))
    && (forall k :: k in s.inFlight ==> s.inFlight[k] in s.loads && s.loads[s.inFlight[k]].key == k.1)
    && (forall id :: id in s.calls ==> CallOwned(es, s, s.calls[id]))
  }

  ghost predicate CallOwned(es: seq<Event>, s: State, c: Call)
  {
    match c.phase
    case Waiting(load) => load in s.loads && s.loads[load].key.subject == c.subject
    case Direct(source) => StartedFor(es, s.calls, source, c.subject)
    case Done(value) => StartedFor(es, s.calls, value, c.subject)
    case _ => true
  }

  lemma StartedStays(es: seq<Event>, e: Event, s: State, value: Snapshot, subject: Subject)
    requires Step(s, e).Some? && StartedFor(es, s.calls, value, subject)
    ensures StartedFor(es + [e], Step(s, e).value.calls, value, subject)
  {
  }

  lemma LoadsOwned(es: seq<Event>, e: Event, s: State, l: nat)
    requires Owned(es, s) && s.clock == |es| && Step(s, e).Some? && (forall l :: l in s.loads ==> l <= s.clock)
    requires l in Step(s, e).value.loads
    ensures var t := Step(s, e).value; StartedFor(es + [e], t.calls, t.loads[l].source, t.loads[l].key.subject)
  {
    hide StartedFor, CallOwned, AfterRead, AfterLoad;
    if l in s.loads {
      StepIsLater(s, e);
      hide Step, Enabled, Effect;
    } else {
      StartsHere(es, e, s, e.id);
    }
    if l in s.loads {
      StartedStays(es, e, s, s.loads[l].source, s.loads[l].key.subject);
    }
  }

  /** What the event being applied starts is started for the call it belongs to. */
  lemma StartsHere(es: seq<Event>, e: Event, s: State, id: nat)
    requires s.clock == |es| && Step(s, e).Some? && id in Step(s, e).value.calls
    requires (e.Begin? || e.RedisFails? || e.ReadStable? || e.LoadVersioned? || e.Resume?) && e.id == id
    ensures var t := Step(s, e).value; StartedFor(es + [e], t.calls, StartHere(s), t.calls[id].subject)
  {
    assert (es + [e])[|es|] == e;
  }

  lemma EntriesOwned(es: seq<Event>, e: Event, s: State, k: CacheKey)
    requires Owned(es, s) && s.clock == |es| && Step(s, e).Some? && k in Step(s, e).value.entries
    ensures var t := Step(s, e).value; StartedFor(es + [e], t.calls, t.entries[k].value, k.subject)
  {
    hide StartedFor, CallOwned, AfterRead, AfterLoad;
    var value, subject := Step(s, e).value.entries[k].value, k.subject;
    if !e.WriteStable? {
      OnlyWritesAddEntries(s, e, k);
    }
    assert StartedFor(es, s.calls, value, subject);
    StartedStays(es, e, s, value, subject);
  }

  lemma UnmovedOwned(es: seq<Event>, e: Event, s: State, id: nat)
    requires Owned(es, s) && Step(s, e).Some? && (forall l :: l in s.loads ==> l <= s.clock)
    requires id in s.calls && Step(s, e).value.calls[id] == s.calls[id]
    ensures CallOwned(es + [e], Step(s, e).value, s.calls[id])
  {
    StepIsLater(s, e);
    var c := s.calls[id];
    assert CallOwned(es, s, c);
    if c.phase.Direct? {
      StartedStays(es, e, s, c.phase.source, c.subject);
    } else if c.phase.Done? {
      StartedStays(es, e, s, c.phase.value, c.subject);
    }
    hide Step, Enabled, Effect, StartedFor;
  }

  lemma MovedOwned(es: seq<Event>, e: Event, s: State, id: nat)
    requires Owned(es, s) && s.clock == |es| && Step(s, e).Some? && (forall l :: l in s.loads ==> l <= s.clock)
    requires id in Step(s, e).value.calls && (id in s.calls ==> Step(s, e).value.calls[id] != s.calls[id])
    ensures CallOwned(es + [e], Step(s, e).value, Step(s, e).value.calls[id])
  {
    var t := Step(s, e).value;
    if id in s.calls {
      var c := s.calls[id];
      assert CallOwned(es, s, c);
      if c.phase.Direct? {
        StartedStays(es, e, s, c.phase.source, c.subject);
      } else if c.phase.Waiting? {
        StartedStays(es, e, s, s.loads[c.phase.load].source, c.subject);
      } else if c.phase.HaveVersions? && Get(s.entries, CacheKey(c.subject, c.phase.versions), s.now).Some? {
        StartedStays(es, e, s, s.entries[CacheKey(c.subject, c.phase.versions)].value, c.subject);
      }
    }
    if e.Begin? || e.RedisFails? || e.ReadStable? || e.LoadVersioned? || e.Resume? {
      StartsHere(es, e, s, id);
    }
    hide StartedFor, CurrentVersions;
  }

  lemma OwnedStays(es: seq<Event>, e: Event, s: State)
    requires Owned(es, s) && FlightsOk(s) && s.clock == |es| && Step(s, e).Some?
    requires forall l :: l in s.loads ==> l <= s.clock
    ensures Owned(es + [e], Step(s, e).value)
  {
    var t := Step(s, e).value;
    FlightsStay(s, e);
    hide Step, CallOwned, StartedFor;
    forall l | l in t.loads ensures StartedFor(es + [e], t.calls, t.loads[l].source, t.loads[l].key.subject) {
      LoadsOwned(es, e, s, l);
    }
    forall k | k in t.entries ensures StartedFor(es + [e], t.calls, t.entries[k].value, k.subject) {
      EntriesOwned(es, e, s, k);
    }
    forall id | id in t.calls ensures CallOwned(es + [e], t, t.calls[id]) {
      if id in s.calls && t.calls[id] == s.calls[id] {
        UnmovedOwned(es, e, s, id);
      } else {
        MovedOwned(es, e, s, id);
      }
    }
  }

  lemma {:induction false} RunIsOwned(ttl: nat, t0: int, es: seq<Event>)
    requires Run(Step, Init(ttl, t0), es).Some?
    ensures var s := Run(Step, Init(ttl, t0), es).value; Owned(es, s) && LoadsKnown(s) && s.clock == |es|
    decreases |es|
  {
    if es != [] {
      var before, e := es[..|es| - 1], es[|es| - 1];
      RunIsOwned(ttl, t0, before);
      var s := Run(Step, Init(ttl, t0), before).value;
      hide Run, Owned;
      OwnedStays(before, e, s);
      LoadsKnownStay(s, e);
      assert es == before + [e];
    }
  }

  ghost predicate LoadsKnown(s: State) { FlightsOk(s) && forall l :: l in s.loads ==> l <= s.clock }

  lemma LoadsKnownStay(s: State, e: Event)
    requires LoadsKnown(s) && Step(s, e).Some?
    ensures LoadsKnown(Step(s, e).value) && Step(s, e).value.clock == s.clock + 1
  {
    FlightsStay(s, e);
    hide FlightsOk;
  }

  /** Whatever a call returns, in any run, was loaded by a call for the very same store, user and role, or visitor. */
  lemma NobodyGetsAnothersSnapshot(ttl: nat, t0: int, es: seq<Event>, id: nat)
    requires Run(Step, Init(ttl, t0), es).Some? && Phase(Run(Step, Init(ttl, t0), es).value, id).Done?
    ensures var s := Run(Step, Init(ttl, t0), es).value;
            && 0 < s.calls[id].phase.value.startedAt <= |es|
            && StartedBy(es[s.calls[id].phase.value.startedAt - 1], s.calls, s.calls[id].subject)
  {
    RunIsOwned(ttl, t0, es);
    hide Run, Step, Owned, LoadsKnown;
    DoneIsOwned(es, Run(Step, Init(ttl, t0), es).value, id);
  }

  lemma DoneIsOwned(es: seq<Event>, s: State, id: nat)
    requires Owned(es, s) && Phase(s, id).Done?
    ensures 0 < s.calls[id].phase.value.startedAt <= |es|
    ensures StartedBy(es[s.calls[id].phase.value.startedAt - 1], s.calls, s.calls[id].subject)
  {
    assert CallOwned(es, s, s.calls[id]);
  }

  /** The first half of the slow run: a load starts under version `'0'`, then its scope is bumped. */
  lemma SlowLoadStarts(ttl: nat) returns (es: seq<Event>, s: State)
    requires ttl > 0
    ensures Run(Step, Init(ttl, 0), es) == Some(s) && |es| == 6
    ensures es[4] == Bump(Ecommerce("store", "visitor")) && es[5] == Tick(VersionTtlMs(ttl))
    ensures var key := CacheKey(EcommerceInitial("store", "visitor"), [0]);
            s.ttl == ttl && s.clock == 6 && s.now == VersionTtlMs(ttl) && s.entries == map[] &&
            s.versions == map[Ecommerce("store", "visitor") := Cell(5, VersionTtlMs(ttl))] &&
            s.inFlight == map[(0, key) := 4] && s.loads == map[4 := Load(0, key, Snapshot(4, 0), Running)] &&
            s.calls.Keys == {0}
  {
    hide Run;
    var s0, subject := Init(ttl, 0), EcommerceInitial("store", "visitor");
    es, s := Machine.Start(Step, s0);
    es, s := Extend(Step, s0, es, Begin(0, 0, subject, true));
    es, s := Extend(Step, s0, es, ReadVersions(0));
    assert Phase(s, 0) == HaveVersions([0]);
    es, s := Extend(Step, s0, es, ReadStable(0, false));
    assert Phase(s, 0) == Checked([0]);
    es, s := Extend(Step, s0, es, LoadVersioned(0));
    es, s := Extend(Step, s0, es, Bump(Ecommerce("store", "visitor")));
    es, s := Extend(Step, s0, es, Tick(VersionTtlMs(ttl)));
  }

  /**
   The timing assumption is tight, for every ttl. When a load lasts exactly a version lifetime, the bumped key
   has expired back to `'0'` and a call begun after the bump (event 4) returns the older load (event 3).
   */
  lemma SlowLoadIsServedStale(ttl: nat) returns (es: seq<Event>, s: State)
    requires ttl > 0
    ensures Run(Step, Init(ttl, 0), es) == Some(s) && |es| == 12
    ensures es[4] == Bump(Ecommerce("store", "visitor")) && es[5] == Tick(1000 * if ttl < 20 then 60 else 3 * ttl)
    ensures es[6] == Begin(1, 0, EcommerceInitial("store", "visitor"), true)
    ensures Phase(s, 1) == Done(Snapshot(4, 0))
  {
    hide Run, Step;
    es, s := SlowLoadStarts(ttl);
    es, s := LateCallChecks(ttl, es, s);
    es, s := LateCallJoins(ttl, es, s);
  }

  /** The late call finds the version key expired, reads `'0'` again and no entry. */
  lemma LateCallChecks(ttl: nat, es: seq<Event>, s: State) returns (es': seq<Event>, t: State)
    requires ttl > 0 && s.ttl == ttl && Run(Step, Init(ttl, 0), es) == Some(s)
    requires s.now == VersionTtlMs(ttl) && s.entries == map[] && s.calls.Keys == {0}
    requires s.versions == map[Ecommerce("store", "visitor") := Cell(5, VersionTtlMs(ttl))]
    ensures var subject := EcommerceInitial("store", "visitor");
            && es' == es + [Begin(1, 0, subject, true), ReadVersions(1), ReadStable(1, false)]
            && Run(Step, Init(ttl, 0), es') == Some(t)
            && t == s.(calls := t.calls, clock := s.clock + 3) && 1 in t.calls && t.calls[1].instance == 0
            && t.calls[1].subject == subject && t.calls[1].phase == Checked([0])
  {
    hide Run;
    var s0, subject := Init(ttl, 0), EcommerceInitial("store", "visitor");
    es', t := Extend(Step, s0, es, Begin(1, 0, subject, true));
    es', t := Extend(Step, s0, es', ReadVersions(1));
    assert Phase(t, 1) == HaveVersions([0]);
    es', t := Extend(Step, s0, es', ReadStable(1, false));
    assert Phase(t, 1) == Checked([0]);
  }

  /** It joins the load that is still in flight under the same key, and returns what that load read. */
  lemma LateCallJoins(ttl: nat, es: seq<Event>, s: State) returns (es': seq<Event>, t: State)
    requires ttl > 0 && s.ttl == ttl && Run(Step, Init(ttl, 0), es) == Some(s)
    requires s.now == VersionTtlMs(ttl)
    requires s.versions == map[Ecommerce("store", "visitor") := Cell(5, VersionTtlMs(ttl))]
    requires var key := CacheKey(EcommerceInitial("store", "visitor"), [0]);
             s.inFlight == map[(0, key) := 4] && s.loads == map[4 := Load(0, key, Snapshot(4, 0), Running)]
    requires 1 in s.calls && s.calls[1].instance == 0 && s.calls[1].subject == EcommerceInitial("store", "visitor")
    requires s.calls[1].phase == Checked([0])
    ensures es' == es + [LoadVersioned(1), WriteStable(4, false), Resume(1)]
    ensures Run(Step, Init(ttl, 0), es') == Some(t) && Phase(t, 1) == Done(Snapshot(4, 0))
  {
    hide Run;
    var s0 := Init(ttl, 0);
    es', t := Extend(Step, s0, es, LoadVersioned(1));
    assert CurrentVersions(t, EcommerceInitial("store", "visitor")) == [0];
    es', t := Extend(Step, s0, es', WriteStable(4, false));
    es', t := Extend(Step, s0, es', Resume(1));
  }
}
