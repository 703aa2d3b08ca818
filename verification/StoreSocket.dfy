/**
 `StoreSocketState` and the segments that update it (src/socket/handlers/store.ts), as an object: each method is the
 code between two awaits. It does what `SocketLifecycle.Segment` says, keeps the invariant of the protocol, and says what
 that means for the socket.
 */
module StoreSocket {
  import opened Redis
  import opened SocketLifecycle

  class StoreSocketState {
    var bootstrap: Bootstrap
    var disconnected: bool
    var presenceRegistered: bool
    var presenceRegistration: Registration
    var cleanupPromise: Cleanup
    var jobs: seq<Job>
    var syncs: nat
    var observing: bool
    var registers: nat
    var unregisters: nat

    function Model(): Socket
      reads this
    {
      Socket(bootstrap, disconnected, presenceRegistered, presenceRegistration, cleanupPromise, jobs, syncs, observing,
             registers, unregisters)
    }

    constructor ()
      ensures Model() == CONNECTED && Inv(Model())
    {
      bootstrap, disconnected, presenceRegistered := Joining, false, false;
      presenceRegistration, cleanupPromise, jobs := NotAsked, NotStarted, [];
      syncs, observing, registers, unregisters := 0, false, 0, 0;
    }

    /** The disconnect listener: the cleanup is a background job. */
    method OnDisconnect()
      requires Inv(Model())
      modifies this
      ensures Some((Model(), [])) == Segment(old(Model()), Disconnect) && Inv(Model())
      ensures disconnected && (cleanupPromise != NotStarted || StartCleanup in jobs)
    {
      SegmentKeepsInv(Model(), Disconnect);
      if !disconnected {
        disconnected := true;
        jobs := jobs + [StartCleanup];
      }
    }

    /** The bootstrap rejects; its background runner will call the error handler. */
    method Reject()
      modifies this
      ensures Model() == Fail(old(Model()))
    {
      bootstrap := Failing;
      jobs := jobs + [HandleError];
    }

    /** The bootstrap once the rooms are joined, up to its await of the registration. */
    method RegisterPresence() returns (calls: seq<Call>)
      requires bootstrap == Joining && Inv(Model())
      modifies this
      ensures Some((Model(), calls)) == Segment(old(Model()), JoinsDone) && Inv(Model())
      ensures registers == (if disconnected then 0 else 1) && (disconnected ==> HandleError in jobs)
    {
      SegmentKeepsInv(Model(), JoinsDone);
      if disconnected {
        Reject();
        return [];
      }
      registers := registers + 1;
      presenceRegistration := Pending([ResumeBootstrap]);
      bootstrap := Registering;
      return [Call.Register];
    }

    /** The promise of `register` resolves and queues its continuations in the order they were attached. */
    method RegistrationResolves()
      requires presenceRegistration.Pending? && Inv(Model())
      modifies this
      ensures Some((Model(), [])) == Segment(old(Model()), RegisterAnswered) && Inv(Model())
      ensures ResumeBootstrap in jobs && BootstrapFirst(jobs)
    {
      SegmentKeepsInv(Model(), RegisterAnswered);
      jobs := jobs + presenceRegistration.waiters;
      presenceRegistration := Answered;
    }

    /** The bootstrap after its await of the registration. */
    method AfterRegistration()
      modifies this
      ensures var resumed := old(Model()).(registered := true);
              Model() == if old(disconnected) then Fail(resumed) else resumed.(bootstrap := Syncing)
    {
      presenceRegistered := true;
      if disconnected {
        Reject();
      } else {
        bootstrap := Syncing;
      }
    }

    /** `cleanup_store_presence`: only the first caller runs the body. */
    method CleanupStorePresence() returns (calls: seq<Call>)
      modifies this
      ensures (Model(), calls) == Clean(old(Model())) && cleanupPromise != NotStarted
      ensures old(cleanupPromise) != NotStarted ==> calls == [] && Model() == old(Model())
    {
      if cleanupPromise != NotStarted {
        return [];
      }
      observing := false;
      calls := [Clear];
      if presenceRegistration.Pending? {
        presenceRegistration := Pending(presenceRegistration.waiters + [ResumeCleanup]);
        cleanupPromise := Waiting;
      } else if presenceRegistration.Answered? {
        jobs := jobs + [ResumeCleanup];
        cleanupPromise := Waiting;
      } else {
        var more := AfterCleanupAwait();
        calls := calls + more;
      }
    }

    method AfterCleanupAwait() returns (calls: seq<Call>)
      modifies this
      ensures (Model(), calls) == Conclude(old(Model()))
    {
      if !presenceRegistered {
        cleanupPromise := Done;
        return [];
      }
      presenceRegistered := false;
      unregisters := unregisters + 1;
      cleanupPromise := Unregistering;
      return [Call.Unregister];
    }

    /** A resumed cleanup always has a register to undo; a disconnected bootstrap always ends in the error handler. */
    method RunNextJob() returns (calls: seq<Call>)
      requires jobs != [] && Inv(Model())
      modifies this
      ensures Some((Model(), calls)) == Segment(old(Model()), RunJob) && Inv(Model())
      ensures old(jobs[0]) == ResumeCleanup ==> calls == [Call.Unregister] && registers == unregisters == 1
      ensures old(jobs[0]) == ResumeBootstrap && disconnected ==> HandleError in jobs
      ensures old(jobs[0]) in {StartCleanup, HandleError} ==> cleanupPromise != NotStarted && !observing
    {
      SegmentKeepsInv(Model(), RunJob);
      TakeFirst(Model());
      var job := jobs[0];
      jobs := jobs[1..];
      match job
      case ResumeBootstrap =>
        AfterRegistration();
        calls := [];
      case ResumeCleanup =>
        calls := AfterCleanupAwait();
      case StartCleanup =>
        calls := CleanupStorePresence();
      case HandleError =>
        calls := CleanupStorePresence();
        bootstrap := Cleaning;
    }

    /** `presence:sync` once presence is listed: the check and the recording are one segment. */
    method RecordObserved(presence: seq<T.Presence>) returns (calls: seq<Call>)
      requires syncs > 0 && Inv(Model())
      modifies this
      ensures Some((Model(), calls)) == Segment(old(Model()), SyncAnswered(presence)) && Inv(Model())
      ensures calls != [] ==> !disconnected && cleanupPromise == NotStarted
    {
      SegmentKeepsInv(Model(), SyncAnswered(presence));
      syncs := syncs - 1;
      if disconnected {
        return [];
      }
      observing := T.StoresOf(presence) != [];
      return [Observe(presence)];
    }
  }
}
