/**
 `SyncCache` as the object it is: fields overwritten in place, one method per synchronous segment or Lua script,
 each equal to the step of the machine in module SyncCache, and `GetOrLoad` as the retry loop of the source.
 `Interfere` is what other calls, other instances, bumps and the clock do while `GetOrLoad` awaits.
 */
module SyncCacheService {
  import opened Redis
  import opened SyncCache

  class Service {
    const ttl: nat
    var clock: nat
    var now: int
    var versions: map<Scope, Cell<Token>>
    var entries: map<CacheKey, Cell<Snapshot>>
    var inFlight: map<(nat, CacheKey), nat>
    var loads: map<nat, Load>
    var calls: map<nat, Call>

    function Model(): State
      reads this
    {
      State(ttl, clock, now, versions, entries, inFlight, loads, calls)
    }

    ghost predicate Valid()
      reads this
    {
      Inv(Model()) && Prompt(Model())
    }

    constructor (ttl: nat, now: int)
      ensures Model() == Init(ttl, now) && Valid()
    {
      this.ttl, this.now, clock := ttl, now, 0;
      versions, entries, inFlight, loads, calls := map[], map[], map[], map[], map[];
    }

    /** MGET of the version keys; a missing one reads as `'0'`. */
    method ReadAll(scopes: seq<Scope>) returns (r: seq<Token>)
      ensures |r| == |scopes| && forall i :: 0 <= i < |r| ==> r[i] == Current(Model(), scopes[i])
    {
      r := [];
      for i := 0 to |scopes|
        invariant |r| == i && forall k :: 0 <= k < i ==> r[k] == Current(Model(), scopes[k])
      {
        r := r + [Current(Model(), scopes[i])];
      }
    }

    /** The loop both scripts open with: compare every version key with its argument. */
    method VersionsMatch(scopes: seq<Scope>, expected: seq<Token>) returns (ok: bool)
      requires |expected| == |scopes|
      ensures ok <==> forall i :: 0 <= i < |scopes| ==> Current(Model(), scopes[i]) == expected[i]
    {
      for index := 0 to |scopes|
        invariant forall i :: 0 <= i < index ==> Current(Model(), scopes[i]) == expected[i]
      {
        if Current(Model(), scopes[index]) != expected[index] {
          return false;
        }
      }
      return true;
    }

    /** read_stable_cache_script */
    method ReadStableScript(key: CacheKey) returns (ok: bool, value: Option<Snapshot>)
      requires |key.versions| == |ScopesOf(key.subject)|
      ensures ok <==> CurrentVersions(Model(), key.subject) == key.versions
      ensures value == if ok then Get(entries, key, now) else None
    {
      ok := VersionsMatch(ScopesOf(key.subject), key.versions);
      value := if ok then Get(entries, key, now) else None;
      SameVersions(key);
    }

    /** write_stable_cache_script */
    method WriteStableScript(key: CacheKey, value: Snapshot) returns (stored: bool)
      requires |key.versions| == |ScopesOf(key.subject)|
      modifies this`entries
      ensures stored <==> old(CurrentVersions(Model(), key.subject) == key.versions)
      ensures entries == if stored then old(entries)[key := Cell(value, now + EntryTtlMs(ttl))] else old(entries)
    {
      SameVersions(key);
      stored := VersionsMatch(ScopesOf(key.subject), key.versions);
      if stored {
        entries := entries[key := Cell(value, now + EntryTtlMs(ttl))];
      }
    }

    lemma SameVersions(key: CacheKey)
      requires |key.versions| == |ScopesOf(key.subject)|
      ensures CurrentVersions(Model(), key.subject) == key.versions <==>
              forall i :: 0 <= i < |key.versions| ==> Current(Model(), ScopesOf(key.subject)[i]) == key.versions[i]
    {
      assert forall i :: 0 <= i < |key.versions| ==>
          CurrentVersions(Model(), key.subject)[i] == Current(Model(), ScopesOf(key.subject)[i]);
    }

    /** The code after `mget` answers. */
    method ReadVersions(id: nat)
      requires Enabled(Model(), Event.ReadVersions(id))
      modifies this
      ensures Some(Model()) == Step(old(Model()), Event.ReadVersions(id))
    {
      var subject := calls[id].subject;
      var found := ReadAll(ScopesOf(subject));
      assert found == CurrentVersions(Model(), subject);
      calls := calls[id := calls[id].(phase := HaveVersions(found))];
      clock := clock + 1;
    }

    /** Script, then hit, retry or miss. */
    method ReadStable(id: nat, corrupt: bool)
      requires Enabled(Model(), Event.ReadStable(id, corrupt)) && Inv(Model())
      modifies this
      ensures Some(Model()) == Step(old(Model()), Event.ReadStable(id, corrupt))
    {
      var c := calls[id];
      assert CallOk(Model(), c);
      var ok, cached := ReadStableScript(CacheKey(c.subject, c.phase.versions));
      if !ok {
        calls := calls[id := NextAttempt(Model(), c)];
      } else if cached.Some? && !corrupt {
        calls := calls[id := c.(phase := Done(cached.value))];
      } else {
        calls := calls[id := c.(phase := Checked(c.phase.versions))];
      }
      clock := clock + 1;
    }

    /** `load_versioned` up to its first `await`: share the promise in flight, or start one. */
    method LoadVersioned(id: nat)
      requires Enabled(Model(), Event.LoadVersioned(id))
      modifies this
      ensures Some(Model()) == Step(old(Model()), Event.LoadVersioned(id))
    {
      var c := calls[id];
      var flight := (c.instance, CacheKey(c.subject, c.phase.versions));
      if flight !in inFlight {
        loads := loads[clock + 1 := Load(c.instance, flight.1, Snapshot(clock + 1, now), Running)];
        inFlight := inFlight[flight := clock + 1];
      }
      calls := calls[id := c.(phase := Waiting(inFlight[flight]))];
      clock := clock + 1;
    }

    /** The loader has answered: conditional write, then the promise settles. */
    method WriteStable(load: nat, replyLost: bool)
      requires Enabled(Model(), Event.WriteStable(load, replyLost)) && Inv(Model())
      modifies this
      ensures Some(Model()) == Step(old(Model()), Event.WriteStable(load, replyLost))
    {
      var l := loads[load];
      assert LoadOk(Model(), l);
      var stored := WriteStableScript(l.key, l.source);
      loads := loads[load := l.(phase := Settled(!stored && !replyLost))];
      clock := clock + 1;
    }

    method Resume(id: nat)
      requires Enabled(Model(), Event.Resume(id))
      modifies this
      ensures Some(Model()) == Step(old(Model()), Event.Resume(id))
    {
      calls := calls[id := AfterLoad(Model(), calls[id], loads[calls[id].phase.load])];
      clock := clock + 1;
    }

    /** Any other event, done by somebody else. */
    method Perform(e: Event)
      requires Enabled(Model(), e)
      modifies this
      ensures Some(Model()) == Step(old(Model()), e)
    {
      var next := Effect(Model(), e);
      now, versions, entries := next.now, next.versions, next.entries;
      inFlight, loads, calls := next.inFlight, next.loads, next.calls;
      clock := clock + 1;
    }

    /** `Perform` as a step of a valid service. */
    method Proceed(e: Event)
      requires Valid() && Enabled(Model(), e) && Prompt(Step(Model(), e).value)
      modifies this
      ensures Valid() && Some(Model()) == Step(old(Model()), e)
    {
      StepKeepsInv(Model(), e);
      Perform(e);
    }

    /** Whatever the rest of the system does during one `await`; loads stay prompt, as assumed throughout. */
    method Interfere(own: nat, schedule: seq<Event>)
      requires Valid() && own in calls
      modifies this
      ensures Valid() && own in calls && calls[own] == old(calls[own])
    {
      for i := 0 to |schedule|
        invariant Valid() && own in calls && calls[own] == old(calls[own])
      {
        var e := schedule[i];
        if Enabled(Model(), e) && !Moves(e, own) && Prompt(Step(Model(), e).value) {
          OthersLeaveMeAlone(Model(), e, own);
          Proceed(e);
        }
      }
    }

    /** One segment of call `own`, done by `Perform`. */
    method Act(e: Event, own: nat)
      requires Valid() && own in calls && Enabled(Model(), e) && Moves(e, own)
      modifies this
      ensures Valid() && Some(Model()) == Step(old(Model()), e)
    {
      hide Inv, Prompt, Effect;
      OwnStep(Model(), e, own);
      Proceed(e);
    }

    /**
     One pass of the loop body, from `mget` to the end of the load it shares or starts. `schedule` is what the
     rest of the system does at each await, `redisFails` and `corrupt` how the two commands answer.
     */
    method Attempt(own: nat, schedule: nat -> seq<Event>, redisFails: bool, corrupt: bool)
      requires Valid() && own in calls && calls[own].phase.Start?
      modifies this
      ensures Valid() && own in calls && Decided(calls[own])
      ensures calls[own].subject == old(calls[own].subject) && calls[own].floor == old(calls[own].floor)
      ensures calls[own].phase.Start? ==> old(calls[own].attempt) < calls[own].attempt
    {
      hide Inv, Prompt, Effect;
      Interfere(own, schedule(0));
      if redisFails {
        OwnSegment(Model(), RedisFails(own), own);
        Act(RedisFails(own), own);
        return;
      }
      OwnStep(Model(), Event.ReadVersions(own), own);
      OwnSegment(Model(), Event.ReadVersions(own), own);
      ReadVersions(own);
      Interfere(own, schedule(1));
      OwnStep(Model(), Event.ReadStable(own, corrupt), own);
      OwnSegment(Model(), Event.ReadStable(own, corrupt), own);
      assert Inv(Model());
      ReadStable(own, corrupt);
      if calls[own].phase.Checked? {
        AwaitLoad(own, schedule);
      }
    }

    /** The await of `load_versioned`: the load may be finished by its leader meanwhile, or is finished here. */
    method AwaitLoad(own: nat, schedule: nat -> seq<Event>)
      requires Valid() && own in calls && calls[own].phase.Checked?
      modifies this
      ensures Valid() && own in calls && Decided(calls[own])
      ensures calls[own].subject == old(calls[own].subject) && calls[own].floor == old(calls[own].floor)
      ensures calls[own].phase.Start? ==> old(calls[own].attempt) < calls[own].attempt
    {
      hide Inv, Prompt, Effect;
      OwnStep(Model(), Event.LoadVersioned(own), own);
      OwnSegment(Model(), Event.LoadVersioned(own), own);
      LoadVersioned(own);
      Interfere(own, schedule(2));
      WaiterHasLoad(Model(), own);
      FinishLoad(calls[own].phase.load, own);
      OwnStep(Model(), Event.Resume(own), own);
      OwnSegment(Model(), Event.Resume(own), own);
      Resume(own);
    }

    /** The loader answers and the conditional write runs, unless that already happened. */
    method FinishLoad(load: nat, own: nat)
      requires Valid() && own in calls && load in loads
      modifies this
      ensures Valid() && own in calls && calls[own] == old(calls[own])
      ensures load in loads && !loads[load].phase.Running?
    {
      if loads[load].phase.Running? {
        var e := Event.WriteStable(load, false);
        StepKeepsInv(Model(), e);
        PromptUntilTick(Model(), e);
        WriteStable(load, false);
      }
    }

    /**
     `get_or_load` itself. Whatever happens during its awaits, it makes at most three attempts and then calls the
     loader directly, and the value it returns was loaded after every bump that concerns it executed before the call.
     */
    method GetOrLoad(own: nat, instance: nat, subject: Subject, cacheUp: bool,
                     schedule: nat -> seq<Event>, redisFails: nat -> bool, corrupt: nat -> bool)
      returns (result: Option<Snapshot>)
      requires Valid() && own !in calls && (cacheUp ==> ttl > 0)
      modifies this
      ensures Valid()
      ensures result.Some? ==>
                forall scope :: Concerns(scope, subject) ==> old(LastBump(Model(), scope)) < result.value.startedAt
    {
      hide Inv, Prompt, Effect, Enabled;
      ghost var floor := LastBumps(Model(), subject);
      StartCall(own, instance, subject, cacheUp);
      while calls[own].phase.Start?
        invariant Valid() && own in calls && Decided(calls[own])
        invariant calls[own].floor == floor && calls[own].subject == subject
        decreases if calls[own].phase.Start? then MAXIMUM_ATTEMPTS - calls[own].attempt else 0
      {
        var attempt := calls[own].attempt;
        Attempt(own, (n: nat) => schedule(4 * attempt + n), redisFails(attempt), corrupt(attempt));
      }
      result := Answer(own, schedule(4 * MAXIMUM_ATTEMPTS));
      if result.Some? {
        FloorCoversConcerns(old(Model()), subject, result.value.startedAt);
      }
    }

    /** The end of the call: the direct load answers, or the value is there already. */
    method Answer(own: nat, schedule: seq<Event>) returns (result: Option<Snapshot>)
      requires Valid() && own in calls && Decided(calls[own]) && !calls[own].phase.Start?
      modifies this
      ensures Valid()
      ensures result.Some? ==> AllBelow(old(calls[own].floor), result.value.startedAt)
    {
      hide Inv, Prompt, Effect;
      if calls[own].phase.Direct? {
        Interfere(own, schedule);
        OwnSegment(Model(), DirectReturns(own), own);
        Act(DirectReturns(own), own);
      }
      if calls[own].phase.Done? {
        ReturnIsFresh(own);
        result := Some(calls[own].phase.value);
      } else {
        result := None;
      }
    }

    method StartCall(own: nat, instance: nat, subject: Subject, cacheUp: bool)
      requires Valid() && own !in calls && (cacheUp ==> ttl > 0)
      modifies this
      ensures Valid() && own in calls && Decided(calls[own])
      ensures calls[own].floor == old(LastBumps(Model(), subject)) && calls[own].subject == subject
    {
      var e := Begin(own, instance, subject, cacheUp);
      PromptUntilTick(Model(), e);
      Proceed(e);
    }

    lemma ReturnIsFresh(own: nat)
      requires Valid() && own in calls && calls[own].phase.Done?
      ensures AllBelow(calls[own].floor, calls[own].phase.value.startedAt)
    {
      assert CallOk(Model(), calls[own]);
    }

  }

  /** The events that are part of call `own` itself. */
  predicate Moves(e: Event, own: nat)
  {
    match e
    case Begin(id, _, _, _) => id == own
    case ReadVersions(id) => id == own
    case RedisFails(id) => id == own
    case ReadStable(id, _) => id == own
    case LoadVersioned(id) => id == own
    case Resume(id) => id == own
    case DirectReturns(id) => id == own
    case DirectRejects(id) => id == own
    case _ => false
  }

  lemma FloorCoversConcerns(s: State, subject: Subject, startedAt: nat)
    requires AllBelow(LastBumps(s, subject), startedAt)
    ensures forall scope :: Concerns(scope, subject) ==> LastBump(s, scope) < startedAt
  {
    forall scope | Concerns(scope, subject) ensures LastBump(s, scope) < startedAt {
      ConcernsAreListed(scope, subject);
      var i :| 0 <= i < |ScopesOf(subject)| && ScopesOf(subject)[i] == scope;
      assert LastBumps(s, subject)[i] < startedAt;
    }
  }

  /** The outcomes after which the loop of `get_or_load` goes round again or ends. */
  predicate Decided(c: Call)
  {
    c.phase.Direct? || c.phase.Done? || c.phase.Failed? || (c.phase.Start? && c.attempt < MAXIMUM_ATTEMPTS)
  }

  /** One of a call's own segments: what it does to the call, and that the service stays valid. */
  lemma OwnSegment(s: State, e: Event, own: nat)
    requires own in s.calls && Step(s, e).Some? && Moves(e, own)
    ensures own in Step(s, e).value.calls
    ensures
      var c, c' := s.calls[own], Step(s, e).value.calls[own];
      && c'.subject == c.subject && c'.floor == c.floor && c'.attempt >= c.attempt
      && (e.ReadVersions? ==> c'.phase.HaveVersions?)
      && (e.RedisFails? ==> c'.phase.Direct?)
      && (e.ReadStable? ==> (c'.phase.Checked? && c'.attempt == c.attempt) || Decided(c'))
      && (e.LoadVersioned? ==> c'.phase.Waiting?)
      && (e.Resume? ==> Decided(c'))
      && (c'.phase.Start? ==> c'.attempt > c.attempt)
  {
  }

  lemma OwnStep(s: State, e: Event, own: nat)
    requires Inv(s) && Prompt(s) && Step(s, e).Some? && Moves(e, own)
    ensures Inv(Step(s, e).value) && Prompt(Step(s, e).value)
  {
    StepKeepsInv(s, e);
    PromptUntilTick(s, e);
  }

  /** A waiter's load is known, so the waiter can be resumed once it has settled. */
  lemma WaiterHasLoad(s: State, own: nat)
    requires Inv(s) && Phase(s, own).Waiting?
    ensures s.calls[own].phase.load in s.loads
  {
    assert CallOk(s, s.calls[own]);
  }

  lemma OthersLeaveMeAlone(s: State, e: Event, own: nat)
    requires own in s.calls && Step(s, e).Some? && !Moves(e, own)
    ensures own in Step(s, e).value.calls && Step(s, e).value.calls[own] == s.calls[own]
  {
  }
}
