/**
 The life of a store user's socket (src/socket/handlers/store.ts): bootstrap, disconnection, presence
 registration, cleanup and `presence:sync`, with the promise jobs run in the order JavaScript queues them. Many
 such sockets, and customers' sockets, share one instance's presence tracking.
 */
module SocketLifecycle {
  import opened Machine
  import opened Redis
  import T = PresenceTracking

  // ---------- one socket ----------

  datatype Job = ResumeBootstrap | ResumeCleanup | StartCleanup | HandleError

  datatype Bootstrap = Joining | Registering | Syncing | Ready | Failing | Cleaning | Ended

  /** `presence_registration`: the promise of `register` with the continuations attached to it. */
  datatype Registration = NotAsked | Pending(waiters: seq<Job>) | Answered

  /** `cleanup_promise`, and how far its body has come. */
  datatype Cleanup = NotStarted | Waiting | Unregistering | Done

  /** `jobs` is the queue of runnable continuations; `registers` and `unregisters` count the calls made. */
  datatype Socket = Socket(
    bootstrap: Bootstrap,
    disconnected: bool,
    registered: bool,
    registration: Registration,
    cleanup: Cleanup,
    jobs: seq<Job>,
    syncs: nat,
    observing: bool,
    registers: nat,
    unregisters: nat)

  const CONNECTED: Socket := Socket(Joining, false, false, NotAsked, NotStarted, [], 0, false, 0, 0)

  /** Calls into the presence service. */
  datatype Call = Register | Unregister | Observe(presence: seq<T.Presence>) | Clear

  datatype Event =
    | Disconnect
    | JoinsDone                                   // the rooms are joined
    | RegisterAnswered
    | RunJob
    | SnapshotsDone                               // the last check before `ready`
    | BootstrapThrows
    | UnregisterAnswered
    | ErrorHandlerEnds                            // the cleanup it awaited is over
    | SyncRequested                               // `presence:sync` arrives
    | SyncAnswered(presence: seq<T.Presence>)
    | SyncThrows

  function Hangup(s: Socket): Socket
  {
    if s.disconnected then s else s.(disconnected := true, jobs := s.jobs + [StartCleanup])
  }

  function Fail(s: Socket): Socket
  {
    s.(bootstrap := Failing, jobs := s.jobs + [HandleError])
  }

  /** The cleanup after its await, or without one. */
  function Conclude(s: Socket): (Socket, seq<Call>)
  {
    if !s.registered then (s.(cleanup := Done), [])
    else (s.(registered := false, cleanup := Unregistering, unregisters := s.unregisters + 1), [Unregister])
  }

  /** `cleanup_store_presence`, up to its first await. */
  function Clean(s: Socket): (Socket, seq<Call>)
  {
    if s.cleanup != NotStarted then (s, [])
    else
      var cleared := s.(observing := false);
      match s.registration
      case NotAsked => var (s', calls) := Conclude(cleared); (s', [Clear] + calls)
      case Pending(waiters) =>
        (cleared.(cleanup := Waiting, registration := Pending(waiters + [ResumeCleanup])), [Clear])
      case Answered => (cleared.(cleanup := Waiting, jobs := s.jobs + [ResumeCleanup]), [Clear])
  }

  function RunFirst(s: Socket): (Socket, seq<Call>)
    requires s.jobs != []
  {
    var rest := s.(jobs := s.jobs[1..]);
    match s.jobs[0]
    case ResumeBootstrap =>
      var resumed := rest.(registered := true);
      (if s.disconnected then Fail(resumed) else resumed.(bootstrap := Syncing), [])
    case ResumeCleanup => Conclude(rest)
    case StartCleanup => Clean(rest)
    case HandleError => var (s', calls) := Clean(rest); (s'.(bootstrap := Cleaning), calls)
  }

  /** One synchronous segment: the socket afterwards, and the calls it makes. */
  function Segment(s: Socket, e: Event): Option<(Socket, seq<Call>)>
  {
    match e
    case Disconnect => Some((Hangup(s), []))
    case JoinsDone =>
      if s.bootstrap != Joining then None
      else if s.disconnected then Some((Fail(s), []))
      else Some((s.(bootstrap := Registering, registration := Pending([ResumeBootstrap]),
                    registers := s.registers + 1), [Register]))
    case RegisterAnswered =>
      if !s.registration.Pending? then None
      else Some((s.(registration := Answered, jobs := s.jobs + s.registration.waiters), []))
    case RunJob => if s.jobs == [] then None else Some(RunFirst(s))
    case SnapshotsDone =>
      if s.bootstrap != Syncing then None
      else Some((if s.disconnected then Fail(s) else s.(bootstrap := Ready), []))
    case BootstrapThrows => if s.bootstrap !in {Joining, Syncing} then None else Some((Fail(s), []))
    case UnregisterAnswered => if s.cleanup != Unregistering then None else Some((s.(cleanup := Done), []))
    case ErrorHandlerEnds =>
      if s.bootstrap != Cleaning || s.cleanup != Done then None else Some((Hangup(s).(bootstrap := Ended), []))
    case SyncRequested => if s.bootstrap != Ready then None else Some((s.(syncs := s.syncs + 1), []))
    case SyncAnswered(presence) =>
      if s.syncs == 0 then None
      else
        var over := s.(syncs := s.syncs - 1);
        if s.disconnected then Some((over, []))
        else Some((over.(observing := T.StoresOf(presence) != []), [Observe(presence)]))
    case SyncThrows => if s.syncs == 0 then None else Some((s.(syncs := s.syncs - 1), []))
  }

  function Step(s: Socket, e: Event): Option<Socket>
  {
    match Segment(s, e)
    case None => None
    case Some(r) => Some(r.0)
  }

  // ---------- its invariant ----------

  /** `job` is queued exactly once if `present`, and otherwise not at all. */
  ghost predicate Queued(jobs: seq<Job>, job: Job, present: bool)
  {
    (job in jobs <==> present) && forall i, j :: 0 <= i < j < |jobs| ==> jobs[i] != job || jobs[j] != job
  }

  ghost predicate BootstrapFirst(jobs: seq<Job>)
  {
    forall i, j :: 0 <= i < j < |jobs| ==> jobs[i] != ResumeCleanup || jobs[j] != ResumeBootstrap
  }

  /** The bootstrap awaits the registration before the cleanup can, so it is resumed first. */
  ghost predicate QueueOk(s: Socket)
  {
    match s.registration
    case NotAsked =>
      && Queued(s.jobs, ResumeBootstrap, false) && Queued(s.jobs, ResumeCleanup, false)
      && s.cleanup in {NotStarted, Done} && s.bootstrap !in {Registering, Syncing, Ready}
    case Pending(waiters) =>
      && Queued(s.jobs, ResumeBootstrap, false) && Queued(s.jobs, ResumeCleanup, false)
      && s.cleanup in {NotStarted, Waiting} && s.bootstrap == Registering
      && waiters == [ResumeBootstrap] + if s.cleanup == Waiting then [ResumeCleanup] else []
    case Answered =>
      && Queued(s.jobs, ResumeBootstrap, s.bootstrap == Registering)
      && Queued(s.jobs, ResumeCleanup, s.cleanup == Waiting)
      && BootstrapFirst(s.jobs)
      && (s.bootstrap == Registering ==> s.cleanup in {NotStarted, Waiting})
      && s.bootstrap != Joining
  }

  ghost predicate CallsOk(s: Socket)
  {
    && (s.registered <==> s.registration == Answered && s.bootstrap != Registering && s.cleanup in {NotStarted, Waiting})
    && s.registers == (if s.registration == NotAsked then 0 else 1)
    && s.unregisters == (if s.registration != NotAsked && s.cleanup in {Unregistering, Done} then 1 else 0)
  }

  ghost predicate EndOk(s: Socket)
  {
    && (s.cleanup != NotStarted ==> !s.observing && (s.disconnected || s.bootstrap in {Cleaning, Ended}))
    && (s.disconnected && s.cleanup == NotStarted ==> StartCleanup in s.jobs)
    && (StartCleanup in s.jobs ==> s.disconnected)
    && Queued(s.jobs, HandleError, s.bootstrap == Failing)
    && (s.bootstrap == Cleaning ==> s.cleanup != NotStarted)
    && (s.bootstrap == Ended ==> s.disconnected)
    && (s.syncs > 0 || s.observing ==> s.bootstrap == Ready)
  }

  ghost predicate Inv(s: Socket) { QueueOk(s) && CallsOk(s) && EndOk(s) }

  lemma FirstIsGone(jobs: seq<Job>, job: Job, present: bool)
    requires jobs != [] && Queued(jobs, job, present)
    ensures Queued(jobs[1..], job, present && jobs[0] != job)
  {
    assert jobs == [jobs[0]] + jobs[1..];
  }

  lemma OneMoreJob(jobs: seq<Job>, job: Job, present: bool, added: Job)
    requires Queued(jobs, job, present) && (present ==> added != job)
    ensures Queued(jobs + [added], job, present || added == job)
  {
  }

  lemma AddJob(s: Socket, added: Job)
    requires QueueOk(s) && added in {StartCleanup, HandleError}
    ensures QueueOk(s.(jobs := s.jobs + [added]))
  {
    OneMoreJob(s.jobs, ResumeBootstrap, ResumeBootstrap in s.jobs, added);
    OneMoreJob(s.jobs, ResumeCleanup, ResumeCleanup in s.jobs, added);
    hide Queued;
  }

  lemma CleanKeepsInv(s: Socket)
    requires QueueOk(s) && CallsOk(s)
    ensures QueueOk(Clean(s).0) && CallsOk(Clean(s).0)
    ensures Clean(s).0.jobs == s.jobs || Clean(s).0.jobs == s.jobs + [ResumeCleanup]
  {
    OneMoreJob(s.jobs, ResumeBootstrap, ResumeBootstrap in s.jobs, ResumeCleanup);
    if ResumeCleanup !in s.jobs {
      OneMoreJob(s.jobs, ResumeCleanup, false, ResumeCleanup);
    }
    hide Queued;
  }

  /** What is left once the first job has been taken off the queue, whichever it is. */
  lemma TakeFirst(s: Socket)
    requires Inv(s) && s.jobs != []
    ensures var rest := s.(jobs := s.jobs[1..]);
            && (s.jobs[0] in {StartCleanup, HandleError} ==> QueueOk(rest) && CallsOk(rest))
            && Queued(rest.jobs, ResumeBootstrap, ResumeBootstrap in s.jobs && s.jobs[0] != ResumeBootstrap)
            && Queued(rest.jobs, ResumeCleanup, ResumeCleanup in s.jobs && s.jobs[0] != ResumeCleanup)
            && Queued(rest.jobs, HandleError, s.bootstrap == Failing && s.jobs[0] != HandleError)
            && (StartCleanup in rest.jobs ==> s.disconnected)
            && (StartCleanup in s.jobs && s.jobs[0] != StartCleanup ==> StartCleanup in rest.jobs)
  {
    FirstIsGone(s.jobs, ResumeBootstrap, ResumeBootstrap in s.jobs);
    FirstIsGone(s.jobs, ResumeCleanup, ResumeCleanup in s.jobs);
    FirstIsGone(s.jobs, HandleError, s.bootstrap == Failing);
    OthersStay(s.jobs, StartCleanup);
    if s.registration.Answered? {
      BootstrapStaysFirst(s.jobs);
    }
    hide Queued, BootstrapFirst;
  }

  lemma OthersStay(jobs: seq<Job>, job: Job)
    requires jobs != []
    ensures job in jobs[1..] ==> job in jobs
    ensures job in jobs && jobs[0] != job ==> job in jobs[1..]
  {
    assert jobs == [jobs[0]] + jobs[1..];
  }

  lemma BootstrapStaysFirst(jobs: seq<Job>)
    requires jobs != [] && BootstrapFirst(jobs)
    ensures BootstrapFirst(jobs[1..])
    ensures jobs[0] == ResumeCleanup ==> ResumeBootstrap !in jobs
  {
  }

  lemma ResumeKeepsInv(s: Socket)
    requires Inv(s) && s.jobs != [] && s.jobs[0] in {ResumeBootstrap, ResumeCleanup}
    ensures Inv(RunFirst(s).0)
  {
    TakeFirst(s);
    BootstrapStaysFirst(s.jobs);
    var rest := s.(jobs := s.jobs[1..]);
    assert s.registration.Answered?;
    OneMoreJob(rest.jobs, ResumeBootstrap, ResumeBootstrap in rest.jobs, HandleError);
    OneMoreJob(rest.jobs, ResumeCleanup, ResumeCleanup in rest.jobs, HandleError);
    if s.bootstrap != Failing {
      OneMoreJob(rest.jobs, HandleError, false, HandleError);
    }
    hide Queued;
  }

  lemma CleanupKeepsInv(s: Socket)
    requires Inv(s) && s.jobs != [] && s.jobs[0] in {StartCleanup, HandleError}
    ensures Inv(RunFirst(s).0)
  {
    TakeFirst(s);
    var rest := s.(jobs := s.jobs[1..]);
    CleanKeepsInv(rest);
    OneMoreJob(rest.jobs, HandleError, HandleError in rest.jobs, ResumeCleanup);
    hide Queued;
  }

  lemma SegmentKeepsInv(s: Socket, e: Event)
    requires Inv(s) && Step(s, e).Some?
    ensures Inv(Step(s, e).value)
  {
    match e
    case RunJob =>
      if s.jobs[0] in {ResumeBootstrap, ResumeCleanup} {
        ResumeKeepsInv(s);
      } else {
        CleanupKeepsInv(s);
      }
      hide RunFirst;
    case RegisterAnswered => AnsweredKeepsInv(s);
    case _ => OtherSegmentKeepsInv(s, e);
  }

  lemma OtherSegmentKeepsInv(s: Socket, e: Event)
    requires Inv(s) && Step(s, e).Some? && !e.RunJob? && !e.RegisterAnswered?
    ensures Inv(Step(s, e).value)
  {
    AddJob(s, StartCleanup);
    AddJob(s, HandleError);
    OneMoreJob(s.jobs, HandleError, s.bootstrap == Failing, StartCleanup);
    if s.bootstrap != Failing {
      OneMoreJob(s.jobs, HandleError, false, HandleError);
    }
    hide Queued, BootstrapFirst, RunFirst, T.StoresOf;
  }

  lemma AnsweredKeepsInv(s: Socket)
    requires Inv(s) && Step(s, RegisterAnswered).Some?
    ensures Inv(Step(s, RegisterAnswered).value)
  {
  }

  lemma RunKeepsInv(es: seq<Event>)
    requires Run(Step, CONNECTED, es).Some?
    ensures Inv(Run(Step, CONNECTED, es).value)
  {
    hide Step;
    AtEnds(Step, CONNECTED, es);
    forall s, e | Inv(s) && Step(s, e).Some? ensures Inv(Step(s, e).value) {
      SegmentKeepsInv(s, e);
    }
    assert Inv(CONNECTED);
    hide Inv;
    Always(Step, Inv, CONNECTED, es, 0, |es|);
  }

  /**
   In every interleaving, registers and unregisters pair up: an unregister follows the register it undoes, at most
   one of each happens, and a finished cleanup has undone everything, for good.
   */
  lemma RegistersAreMatched(es: seq<Event>, n: nat)
    requires Run(Step, CONNECTED, es).Some? && n <= |es|
    ensures var s := At(Step, CONNECTED, es, n); s.unregisters <= s.registers <= 1
    ensures At(Step, CONNECTED, es, n).cleanup == Done ==>
              var end := Run(Step, CONNECTED, es).value;
              end.cleanup == Done && end.registers == end.unregisters && !end.observing
  {
    AtEnds(Step, CONNECTED, es);
    Prefix(Step, CONNECTED, es, n);
    RunKeepsInv(es[..n]);
    RunKeepsInv(es);
    if At(Step, CONNECTED, es, n).cleanup == Done {
      var over := (s: Socket) => Inv(s) && s.cleanup == Done;
      forall s, e | over(s) && Step(s, e).Some? ensures over(Step(s, e).value) {
        SegmentKeepsInv(s, e);
        DoneStays(s, e);
      }
      hide Step, Inv, Run, At;
      Always(Step, over, CONNECTED, es, n, |es|);
    }
  }

  lemma DoneStays(s: Socket, e: Event)
    requires Inv(s) && s.cleanup == Done && Step(s, e).Some?
    ensures Step(s, e).value.cleanup == Done
  {
    if e.RunJob? {
      assert s.jobs[0] != ResumeCleanup;
    }
    hide Queued, BootstrapFirst;
  }

  /** A disconnected socket is never stuck short of that: a job is runnable or an answer from Redis is awaited. */
  lemma CleanupIsNeverStuck(es: seq<Event>)
    requires Run(Step, CONNECTED, es).Some?
    ensures var s := Run(Step, CONNECTED, es).value;
            (s.disconnected || s.bootstrap in {Failing, Cleaning}) && s.cleanup != Done ==>
              Step(s, RunJob).Some? || Step(s, RegisterAnswered).Some? || Step(s, UnregisterAnswered).Some?
  {
    RunKeepsInv(es);
  }

  // ---------- every cleanup ends ----------

  function BootstrapWeight(b: Bootstrap): nat
  {
    match b
    case Joining => 4
    case Registering => 4
    case Syncing => 4
    case Failing => 2
    case Cleaning => 1
    case Ready => 0
    case Ended => 0
  }

  function CleanupWeight(c: Cleanup): nat
  {
    match c
    case NotStarted => 4
    case Waiting => 2
    case Unregistering => 1
    case Done => 0
  }

  /** How much can still happen to a disconnected socket. */
  function Weight(s: Socket): nat
  {
    BootstrapWeight(s.bootstrap) + CleanupWeight(s.cleanup) + |s.jobs| +
    if s.registration.Pending? then 1 + |s.registration.waiters| else 0
  }

  /** Everything but another disconnect and `presence:sync`, which leave bootstrap and cleanup alone. */
  predicate Progress(e: Event)
  {
    !e.Disconnect? && !e.SyncRequested? && !e.SyncAnswered? && !e.SyncThrows?
  }

  lemma ProgressLightens(s: Socket, e: Event)
    requires Inv(s) && s.disconnected && Step(s, e).Some?
    ensures Step(s, e).value.disconnected
    ensures Weight(Step(s, e).value) + (if Progress(e) then 1 else 0) <= Weight(s)
  {
    if e.RunJob? {
      HeadMeans(s);
    }
    hide QueueOk, CallsOk, EndOk;
  }

  /** What a job at the head of the queue says about the state. */
  lemma HeadMeans(s: Socket)
    requires Inv(s) && s.jobs != []
    ensures s.jobs[0] == ResumeBootstrap ==> s.bootstrap == Registering && s.registration.Answered?
    ensures s.jobs[0] == ResumeCleanup ==> s.cleanup == Waiting && s.registration.Answered?
    ensures s.jobs[0] == HandleError ==> s.bootstrap == Failing
  {
    assert s.jobs[0] in s.jobs;
  }

  function ProgressCount(es: seq<Event>): nat
  {
    if es == [] then 0 else ProgressCount(es[..|es| - 1]) + if Progress(es[|es| - 1]) then 1 else 0
  }

  /** After a disconnect no run goes on for ever: each further step of bootstrap or cleanup uses up some weight. */
  lemma {:induction false} ProgressIsBounded(es: seq<Event>, n: nat, m: nat)
    requires Run(Step, CONNECTED, es).Some? && n <= m <= |es| && At(Step, CONNECTED, es, n).disconnected
    ensures At(Step, CONNECTED, es, m).disconnected
    ensures ProgressCount(es[n..m]) + Weight(At(Step, CONNECTED, es, m)) <= Weight(At(Step, CONNECTED, es, n))
    decreases m
  {
    hide Run, At, Step, Weight;
    if n < m {
      assert es[n..m][..m - n - 1] == es[n..m - 1] && es[n..m][m - n - 1] == es[m - 1];
      ProgressIsBounded(es, n, m - 1);
      StepAt(Step, CONNECTED, es, m - 1);
      Prefix(Step, CONNECTED, es, m - 1);
      RunKeepsInv(es[..m - 1]);
      ProgressLightens(At(Step, CONNECTED, es, m - 1), es[m - 1]);
    } else {
      assert es[n..m] == [];
    }
  }

  /** And however far it has come, letting the jobs run and the answers arrive brings the cleanup to its end. */
  lemma {:induction false} CleanupEnds(es: seq<Event>) returns (fs: seq<Event>)
    requires Run(Step, CONNECTED, es).Some? && Run(Step, CONNECTED, es).value.disconnected
    ensures es <= fs && Run(Step, CONNECTED, fs).Some? && Run(Step, CONNECTED, fs).value.cleanup == Done
    ensures forall i :: |es| <= i < |fs| ==> fs[i] in {RunJob, RegisterAnswered, UnregisterAnswered}
    decreases Weight(Run(Step, CONNECTED, es).value)
  {
    hide Run, Step, Weight;
    var s := Run(Step, CONNECTED, es).value;
    fs := es;
    if s.cleanup != Done {
      CleanupIsNeverStuck(es);
      RunKeepsInv(es);
      var e := if Step(s, RunJob).Some? then RunJob
               else if Step(s, RegisterAnswered).Some? then RegisterAnswered else UnregisterAnswered;
      ProgressLightens(s, e);
      var next, t := Extend(Step, CONNECTED, es, e);
      fs := CleanupEnds(next);
    }
  }

  // ---------- a socket that is left alone becomes ready ----------

  /** The steps of a bootstrap that nothing disturbs. */
  predicate Undisturbed(e: Event) { e in {JoinsDone, RegisterAnswered, RunJob, SnapshotsDone} }

  predicate Underway(s: Socket) { !s.disconnected && s.bootstrap in {Joining, Registering, Syncing} }

  function StepsLeft(s: Socket): nat
  {
    match s.bootstrap
    case Joining => 5 + |s.jobs|
    case Registering => 2 + |s.jobs| + if s.registration.Pending? then 1 + |s.registration.waiters| else 0
    case Syncing => 1
    case _ => 0
  }

  /** The next step of an undisturbed bootstrap. */
  lemma BootstrapAdvances(s: Socket) returns (e: Event)
    requires Inv(s) && Underway(s)
    ensures Undisturbed(e) && Step(s, e).Some?
    ensures var t := Step(s, e).value;
            && !t.disconnected && (if s.bootstrap == Syncing then t.bootstrap == Ready else Underway(t))
            && StepsLeft(t) < StepsLeft(s) && t.unregisters == s.unregisters == 0
  {
    match s.bootstrap
    case Joining => e := JoinsDone;
    case Registering =>
      if s.registration.Pending? {
        e := RegisterAnswered;
      } else {
        e := RunJob;
        assert ResumeBootstrap in s.jobs;
        HeadMeans(s);
        assert s.jobs[0] in s.jobs;
      }
    case Syncing => e := SnapshotsDone;
  }

  /** However far a bootstrap has come: if nobody disconnects and nothing throws, it gets ready, and stays registered. */
  lemma {:induction false} BootstrapSucceeds(es: seq<Event>) returns (fs: seq<Event>)
    requires Run(Step, CONNECTED, es).Some? && Underway(Run(Step, CONNECTED, es).value)
    ensures es <= fs && Run(Step, CONNECTED, fs).Some? && forall i :: |es| <= i < |fs| ==> Undisturbed(fs[i])
    ensures var t := Run(Step, CONNECTED, fs).value;
            t.bootstrap == Ready && !t.disconnected && t.registered && t.registers == 1 && t.unregisters == 0
    decreases StepsLeft(Run(Step, CONNECTED, es).value)
  {
    RunKeepsInv(es);
    var s := Run(Step, CONNECTED, es).value;
    var e := BootstrapAdvances(s);
    hide Run, Step, StepsLeft;
    var t;
    fs, t := Extend(Step, CONNECTED, es, e);
    if s.bootstrap == Syncing {
      RunKeepsInv(fs);
    } else {
      fs := BootstrapSucceeds(fs);
    }
  }

  /** Not failed, and not cleaned up. */
  predicate Well(s: Socket) { !s.disconnected && s.cleanup == NotStarted && s.bootstrap !in {Failing, Cleaning, Ended} }

  lemma WellStays(s: Socket, e: Event)
    requires Inv(s) && Well(s) && Step(s, e).Some? && e != Disconnect && e != BootstrapThrows
    ensures Well(Step(s, e).value)
  {
    if e == RunJob {
      HeadMeans(s);
      assert s.jobs[0] in s.jobs;
    }
    hide QueueOk, CallsOk;
  }

  /** Only a disconnect or an error makes a bootstrap fail, and only they start a cleanup. */
  lemma {:induction false} NothingElseFails(es: seq<Event>, n: nat)
    requires Run(Step, CONNECTED, es).Some? && n <= |es| && Disconnect !in es[..n] && BootstrapThrows !in es[..n]
    ensures Well(At(Step, CONNECTED, es, n))
  {
    assert Well(CONNECTED);
    hide Run, At, Step, Well, Inv;
    if n == 0 {
      AtEnds(Step, CONNECTED, es);
    } else {
      assert es[..n] == es[..n - 1] + [es[n - 1]];
      NothingElseFails(es, n - 1);
      StepAt(Step, CONNECTED, es, n - 1);
      Prefix(Step, CONNECTED, es, n - 1);
      RunKeepsInv(es[..n - 1]);
      WellStays(At(Step, CONNECTED, es, n - 1), es[n - 1]);
    }
  }

  /** Failed, or disconnected before it was ready. */
  predicate Doomed(s: Socket) { s.bootstrap in {Failing, Cleaning, Ended} || (s.disconnected && s.bootstrap != Ready) }

  lemma DoomedStays(s: Socket, e: Event)
    requires Inv(s) && Doomed(s) && Step(s, e).Some?
    ensures Doomed(Step(s, e).value)
  {
    if e == RunJob {
      HeadMeans(s);
    }
    hide QueueOk, CallsOk;
  }

  /** A socket that fails, or disconnects before it is ready, never becomes ready and never observes anybody. */
  lemma {:induction false} DoomedIsNeverReady(es: seq<Event>, n: nat, m: nat)
    requires Run(Step, CONNECTED, es).Some? && n <= m <= |es| && Doomed(At(Step, CONNECTED, es, n))
    ensures var t := At(Step, CONNECTED, es, m); Doomed(t) && t.bootstrap != Ready && !t.observing && t.syncs == 0
    decreases m
  {
    hide Run, At, Step, QueueOk, CallsOk;
    Prefix(Step, CONNECTED, es, m);
    RunKeepsInv(es[..m]);
    if n < m {
      DoomedIsNeverReady(es, n, m - 1);
      StepAt(Step, CONNECTED, es, m - 1);
      Prefix(Step, CONNECTED, es, m - 1);
      RunKeepsInv(es[..m - 1]);
      DoomedStays(At(Step, CONNECTED, es, m - 1), es[m - 1]);
    }
  }
}
