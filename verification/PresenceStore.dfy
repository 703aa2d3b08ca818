/**
 One store's expiring sorted set of online sockets, shared by several service instances
 (src/services/presence_service.ts). Each instance sends its commands over one FIFO connection; an event below
 is either the synchronous part of `register`, `unregister` or a heartbeat, which changes local state and queues
 a command, or Redis running the oldest queued command of some instance.
 */
module PresenceStore {
  import opened Machine
  import opened Redis

  /** How an instance names one of its sockets in the sorted set. */
  datatype Member = Member(instance: nat, socket: nat)

  /** The sorted set, and when `PEXPIRE` lets the whole key go. */
  datatype Zset = Zset(scores: map<Member, int>, expiresAt: int)

  datatype Command =
    | Register(member: Member)
    | Unregister(member: Member)
    | Refresh(members: set<Member>)

  datatype Instance = Instance(local: set<Member>, queue: seq<Command>)

  /** `flips` are the transitions reported by register (true) and unregister (false), in Redis order. */
  datatype State = State(ttl: nat, now: int, zset: Zset, instances: map<nat, Instance>, flips: seq<bool>)

  datatype Event =
    | Tick(ms: nat)
    | Boot(instance: nat)
    | LocalRegister(instance: nat, socket: nat)
    | LocalUnregister(instance: nat, socket: nat)
    | Heartbeat(instance: nat)
    | Execute(instance: nat)
    | PruneForList(at: int)        // `list`: ZREMRANGEBYSCORE with a Redis time read a moment earlier

  function Init(ttl: nat, now: int): State
  {
    State(ttl, now, Zset(map[], now), map[], [])
  }

  // ---------- Redis commands ----------

  /** What a command sees: nothing once the key itself has expired. */
  function Visible(z: Zset, now: int): map<Member, int>
  {
    if now < z.expiresAt then z.scores else map[]
  }

  /** `ZREMRANGEBYSCORE key -inf at` */
  function Prune(scores: map<Member, int>, at: int): (r: map<Member, int>)
    ensures forall m :: m in r <==> m in scores && scores[m] > at
    ensures forall m :: m in r ==> r[m] == scores[m]
  {
    map m | m in scores && scores[m] > at :: scores[m]
  }

  function AddAll(scores: map<Member, int>, members: set<Member>, score: int): (r: map<Member, int>)
    ensures r.Keys == scores.Keys + members
    ensures forall m :: m in r ==> r[m] == if m in members then score else scores[m]
  {
    map m | m in scores.Keys + members :: if m in members then score else scores[m]
  }

  /** The three scripts: the sorted set afterwards and the transition they make the caller report, if any. */
  function RunCommand(z: Zset, c: Command, now: int, ttl: nat): (Zset, seq<bool>)
  {
    match c
    case Register(member) =>
      var live := Prune(Visible(z, now), now);
      (Zset(live[member := now + ttl], now + 2 * ttl), if |live| == 0 then [true] else [])
    case Unregister(member) =>
      var seen := Visible(z, now);
      var live := Prune(seen - {member}, now);
      (Zset(live, z.expiresAt), if member in seen && |live| == 0 then [false] else [])
    case Refresh(members) =>
      var live := AddAll(Prune(Visible(z, now), now), members, now + ttl);
      (Zset(live, if |live| > 0 then now + 2 * ttl else z.expiresAt), [])
  }

  // ---------- steps ----------

  function Queue(s: State, i: nat, local: set<Member>, c: Command): State
    requires i in s.instances
  {
    s.(instances := s.instances[i := Instance(local, s.instances[i].queue + [c])])
  }

  function Step(s: State, e: Event): Option<State>
  {
    match e
    case Tick(ms) => Some(s.(now := s.now + ms))
    case Boot(i) => if i in s.instances then None else Some(s.(instances := s.instances[i := Instance({}, [])]))
    case LocalRegister(i, socket) =>
      if i !in s.instances then None
      else Some(Queue(s, i, s.instances[i].local + {Member(i, socket)}, Register(Member(i, socket))))
    case LocalUnregister(i, socket) =>
      if i !in s.instances then None
      else if Member(i, socket) !in s.instances[i].local then Some(s)
      else Some(Queue(s, i, s.instances[i].local - {Member(i, socket)}, Unregister(Member(i, socket))))
    case Heartbeat(i) =>
      if i !in s.instances then None else Some(Queue(s, i, s.instances[i].local, Refresh(s.instances[i].local)))
    case Execute(i) =>
      if i !in s.instances || s.instances[i].queue == [] then None
      else
        var (zset, flips) := RunCommand(s.zset, s.instances[i].queue[0], s.now, s.ttl);
        Some(s.(zset := zset, flips := s.flips + flips,
                instances := s.instances[i := s.instances[i].(queue := s.instances[i].queue[1..])]))
    case PruneForList(at) =>
      if at > s.now then None
      else Some(s.(zset := s.zset.(scores := Prune(Visible(s.zset, s.now), at))))
  }

  // ---------- what the queued commands will leave ----------

  function Mine(s: State, i: nat): (r: set<Member>)
    ensures forall m :: m in r <==> m in s.zset.scores && m.instance == i
  {
    set m | m in s.zset.scores && m.instance == i
  }

  function Leaves(c: Command, members: set<Member>): set<Member>
  {
    match c
    case Register(member) => members + {member}
    case Unregister(member) => members - {member}
    case Refresh(refreshed) => members + refreshed
  }

  /** The instance's members once its queue has run from `start`, if nothing expires meanwhile. */
  function Replay(queue: seq<Command>, start: set<Member>): set<Member>
  {
    if queue == [] then start else Replay(queue[1..], Leaves(queue[0], start))
  }

  lemma {:induction false} ReplayAppend(queue: seq<Command>, c: Command, start: set<Member>)
    ensures Replay(queue + [c], start) == Leaves(c, Replay(queue, start))
  {
    if queue == [] {
      assert (queue + [c])[1..] == [];
    } else {
      assert (queue + [c])[1..] == queue[1..] + [c];
      ReplayAppend(queue[1..], c, Leaves(queue[0], start));
    }
  }

  lemma {:induction false} ReplayMonotone(queue: seq<Command>, a: set<Member>, b: set<Member>)
    requires a <= b
    ensures Replay(queue, a) <= Replay(queue, b)
  {
    if queue != [] {
      ReplayMonotone(queue[1..], Leaves(queue[0], a), Leaves(queue[0], b));
    }
  }

  // ---------- no ghost members ----------

  ghost predicate SpeaksOf(i: nat, c: Command)
  {
    match c
    case Register(m) => m.instance == i
    case Unregister(m) => m.instance == i
    case Refresh(ms) => forall m :: m in ms ==> m.instance == i
  }

  /** Every local socket and queued command of an instance concerns that instance's own members. */
  ghost predicate OwnOnly(s: State)
  {
    forall i :: i in s.instances ==>
      && (forall m :: m in s.instances[i].local ==> m.instance == i)
      && (forall c :: c in s.instances[i].queue ==> SpeaksOf(i, c))
  }

  ghost predicate Booted(s: State)
  {
    forall m :: m in s.zset.scores ==> m.instance in s.instances
  }

  lemma BootedStays(s: State, e: Event)
    requires OwnOnly(s) && Booted(s) && Step(s, e).Some?
    ensures Booted(Step(s, e).value)
  {
    if e.Execute? { assert SpeaksOf(e.instance, s.instances[e.instance].queue[0]); }
  }

  lemma OwnOnlyStays(s: State, e: Event)
    requires OwnOnly(s) && Step(s, e).Some?
    ensures OwnOnly(Step(s, e).value)
  {
  }

  /** Local state is never behind Redis: what Redis will hold for the instance is registered locally. */
  ghost predicate NoGhosts(s: State)
  {
    forall i :: i in s.instances ==> Replay(s.instances[i].queue, Mine(s, i)) <= s.instances[i].local
  }

  /** A command leaves the running instance's members as `Leaves` says, others' at most as they were. */
  lemma CommandEffect(s: State, i: nat, j: nat)
    requires OwnOnly(s) && Step(s, Execute(i)).Some? && j in s.instances
    ensures var s' := Step(s, Execute(i)).value;
            if j == i then Mine(s', j) <= Leaves(s.instances[i].queue[0], Mine(s, j)) else Mine(s', j) <= Mine(s, j)
  {
    assert SpeaksOf(i, s.instances[i].queue[0]);
  }

  /** The local part of register, unregister and heartbeat: replaying the longer queue follows the local set. */
  lemma QueueAppends(s: State, e: Event, j: nat)
    requires e.LocalRegister? || e.LocalUnregister? || e.Heartbeat?
    requires Step(s, e).Some? && j in s.instances
    ensures var s' := Step(s, e).value;
            Mine(s', j) == Mine(s, j)
    ensures var s' := Step(s, e).value;
            Replay(s.instances[j].queue, Mine(s, j)) <= s.instances[j].local ==>
            Replay(s'.instances[j].queue, Mine(s, j)) <= s'.instances[j].local
    ensures var s' := Step(s, e).value;
            Replay(s.instances[j].queue, Mine(s, j)) == s.instances[j].local ==>
            Replay(s'.instances[j].queue, Mine(s, j)) == s'.instances[j].local
  {
    var s' := Step(s, e).value;
    assert Mine(s', j) == Mine(s, j);
    if s'.instances[j] != s.instances[j] {
      ReplayAppend(s.instances[j].queue, s'.instances[j].queue[|s.instances[j].queue|], Mine(s, j));
    }
  }

  lemma NoGhostsStays(s: State, e: Event)
    requires OwnOnly(s) && Booted(s) && NoGhosts(s) && Step(s, e).Some?
    ensures NoGhosts(Step(s, e).value)
  {
    var s' := Step(s, e).value;
    forall j | j in s'.instances ensures Replay(s'.instances[j].queue, Mine(s', j)) <= s'.instances[j].local {
      match e
      case Boot(i) =>
        if j == i { assert Mine(s, i) == {}; } else { assert Mine(s', j) == Mine(s, j); }
      case Execute(i) =>
        CommandEffect(s, i, j);
        if j == i {
          ReplayMonotone(s'.instances[j].queue, Mine(s', j), Leaves(s.instances[i].queue[0], Mine(s, j)));
        } else {
          ReplayMonotone(s'.instances[j].queue, Mine(s', j), Mine(s, j));
        }
      case PruneForList(_) => ReplayMonotone(s'.instances[j].queue, Mine(s', j), Mine(s, j));
      case LocalRegister(_, _) => QueueAppends(s, e, j);
      case LocalUnregister(_, _) => QueueAppends(s, e, j);
      case Heartbeat(_) => QueueAppends(s, e, j);
      case Tick(_) => assert Mine(s', j) == Mine(s, j);
    }
  }

  /**
   No ghost members. In every run, whatever expires and however heartbeats interleave with disconnections, once an
   instance's connection is idle Redis holds none of its sockets that it has unregistered.
   */
  lemma IdleInstanceHasNoGhosts(ttl: nat, t0: int, es: seq<Event>, i: nat)
    requires Run(Step, Init(ttl, t0), es).Some?
    requires i in Run(Step, Init(ttl, t0), es).value.instances
    requires Run(Step, Init(ttl, t0), es).value.instances[i].queue == []
    ensures var s := Run(Step, Init(ttl, t0), es).value; Mine(s, i) <= s.instances[i].local
  {
    var s0 := Init(ttl, t0);
    AtEnds(Step, s0, es);
    assert OwnOnly(s0) && Booted(s0) && NoGhosts(s0);
    forall s, e | OwnOnly(s) && Booted(s) && NoGhosts(s) && Step(s, e).Some?
      ensures var s' := Step(s, e).value; OwnOnly(s') && Booted(s') && NoGhosts(s')
    {
      OwnOnlyStays(s, e);
      BootedStays(s, e);
      NoGhostsStays(s, e);
    }
    Always(Step, s => OwnOnly(s) && Booted(s) && NoGhosts(s), s0, es, 0, |es|);
  }

  // ---------- exactness and alternation while nothing expires ----------

  /** Every member was refreshed less than a ttl ago: nothing has expired. */
  ghost predicate Fresh(s: State)
  {
    forall m :: m in s.zset.scores ==> s.now < s.zset.scores[m] && s.now < s.zset.expiresAt
  }

  /** Each queued heartbeat only names members that Redis will already hold when its turn comes. */
  ghost predicate HeartbeatsAddNothing(queue: seq<Command>, start: set<Member>)
  {
    queue != [] ==>
      && (queue[0].Refresh? ==> queue[0].members <= start)
      && HeartbeatsAddNothing(queue[1..], Leaves(queue[0], start))
  }

  lemma {:induction false} HeartbeatsAppend(queue: seq<Command>, c: Command, start: set<Member>)
    requires HeartbeatsAddNothing(queue, start)
    requires c.Refresh? ==> c.members <= Replay(queue, start)
    ensures HeartbeatsAddNothing(queue + [c], start)
  {
    if queue == [] {
      assert (queue + [c])[1..] == [];
    } else {
      assert (queue + [c])[1..] == queue[1..] + [c];
      HeartbeatsAppend(queue[1..], c, Leaves(queue[0], start));
    }
  }

  ghost predicate Exact(s: State)
  {
    forall i :: i in s.instances ==>
      && Replay(s.instances[i].queue, Mine(s, i)) == s.instances[i].local
      && HeartbeatsAddNothing(s.instances[i].queue, Mine(s, i))
  }

  /** online, offline, online, ... */
  ghost predicate Alternates(flips: seq<bool>)
  {
    forall k :: 0 <= k < |flips| ==> flips[k] == (k % 2 == 0)
  }

  ghost predicate Alternating(s: State)
  {
    && Alternates(s.flips)
    && (|s.flips| % 2 == 1 <==> s.zset.scores.Keys != {})
  }

  lemma FreshSeesAll(s: State)
    requires Fresh(s)
    ensures Prune(Visible(s.zset, s.now), s.now) == s.zset.scores == Visible(s.zset, s.now)
  {
  }

  lemma ExactCommandEffect(s: State, i: nat, j: nat)
    requires OwnOnly(s) && Fresh(s) && Step(s, Execute(i)).Some? && j in s.instances
    ensures var s' := Step(s, Execute(i)).value;
            Mine(s', j) == if j == i then Leaves(s.instances[i].queue[0], Mine(s, j)) else Mine(s, j)
  {
    FreshSeesAll(s);
    var c := s.instances[i].queue[0];
    assert SpeaksOf(i, c);
    if c.Unregister? {
      assert Prune(s.zset.scores - {c.member}, s.now) == s.zset.scores - {c.member};
    }
  }

  lemma HeartbeatsStay(s: State, e: Event, j: nat)
    requires e.LocalRegister? || e.LocalUnregister? || e.Heartbeat?
    requires Exact(s) && Step(s, e).Some? && j in s.instances
    ensures var s' := Step(s, e).value;
            && Mine(s', j) == Mine(s, j)
            && Replay(s'.instances[j].queue, Mine(s, j)) == s'.instances[j].local
            && HeartbeatsAddNothing(s'.instances[j].queue, Mine(s, j))
  {
    var s' := Step(s, e).value;
    QueueAppends(s, e, j);
    if s'.instances[j] != s.instances[j] {
      HeartbeatsAppend(s.instances[j].queue, s'.instances[j].queue[|s.instances[j].queue|], Mine(s, j));
    }
  }

  lemma ExactStays(s: State, e: Event)
    requires OwnOnly(s) && Booted(s) && Exact(s) && Fresh(s) && Step(s, e).Some?
    ensures Exact(Step(s, e).value)
  {
    var s' := Step(s, e).value;
    FreshSeesAll(s);
    forall j | j in s'.instances
      ensures Replay(s'.instances[j].queue, Mine(s', j)) == s'.instances[j].local &&
              HeartbeatsAddNothing(s'.instances[j].queue, Mine(s', j))
    {
      match e
      case Boot(i) =>
        if j == i { assert Mine(s', i) == {}; } else { assert Mine(s', j) == Mine(s, j); }
      case Execute(i) => ExactCommandEffect(s, i, j);
      case LocalRegister(_, _) => HeartbeatsStay(s, e, j);
      case LocalUnregister(_, _) => HeartbeatsStay(s, e, j);
      case Heartbeat(_) => HeartbeatsStay(s, e, j);
      case Tick(_) => assert Mine(s', j) == Mine(s, j);
      case PruneForList(at) => assert Mine(s', j) == Mine(s, j);
    }
  }

  /** A command run while nothing is expired: it reports a transition exactly when emptiness changes. */
  lemma CommandFlips(z: Zset, c: Command, now: int, ttl: nat)
    requires forall m :: m in z.scores ==> now < z.scores[m] && now < z.expiresAt
    requires c.Refresh? ==> c.members <= z.scores.Keys
    ensures var (z', flips) := RunCommand(z, c, now, ttl);
            flips == if (z.scores.Keys == {}) == (z'.scores.Keys == {}) then [] else [z'.scores.Keys != {}]
  {
    assert Prune(Visible(z, now), now) == z.scores == Visible(z, now);
    match c
    case Register(member) => assert member in z.scores[member := now + ttl];
    case Unregister(member) =>
      assert Prune(z.scores - {member}, now) == z.scores - {member};
      assert (z.scores - {member}).Keys == z.scores.Keys - {member};
    case Refresh(members) =>
  }

  lemma ExecuteShape(s: State, i: nat)
    requires Step(s, Execute(i)).Some?
    ensures var s', (zset, flips) := Step(s, Execute(i)).value, RunCommand(s.zset, s.instances[i].queue[0], s.now, s.ttl);
            s'.zset == zset && s'.flips == s.flips + flips
  {
  }

  lemma FlipsExtend(flips: seq<bool>, more: seq<bool>, before: bool, after: bool)
    requires Alternates(flips) && (|flips| % 2 == 1 <==> before)
    requires more == if before == after then [] else [after]
    ensures Alternates(flips + more) && (|flips + more| % 2 == 1 <==> after)
  {
    if before != after {
      assert forall k :: 0 <= k < |flips + more| ==> (flips + more)[k] == if k < |flips| then flips[k] else after;
    } else {
      assert flips + more == flips;
    }
  }

  lemma AlternatingExecute(s: State, i: nat)
    requires Exact(s) && Alternating(s) && Fresh(s) && Step(s, Execute(i)).Some?
    ensures Alternating(Step(s, Execute(i)).value)
  {
    ExecuteShape(s, i);
    var c := s.instances[i].queue[0];
    HeadAddsNothing(s, i);
    CommandFlips(s.zset, c, s.now, s.ttl);
    hide RunCommand, Step, Exact, Fresh, Alternates;
    var (zset, flips) := RunCommand(s.zset, c, s.now, s.ttl);
    FlipsExtend(s.flips, flips, s.zset.scores.Keys != {}, zset.scores.Keys != {});
  }

  lemma HeadAddsNothing(s: State, i: nat)
    requires Exact(s) && i in s.instances && s.instances[i].queue != []
    ensures s.instances[i].queue[0].Refresh? ==> s.instances[i].queue[0].members <= s.zset.scores.Keys
  {
    assert HeartbeatsAddNothing(s.instances[i].queue, Mine(s, i));
  }

  lemma AlternatingStays(s: State, e: Event)
    requires Exact(s) && Alternating(s) && Fresh(s) && Step(s, e).Some?
    ensures Alternating(Step(s, e).value)
  {
    if e.Execute? {
      AlternatingExecute(s, e.instance);
    } else if e.PruneForList? {
      FreshSeesAll(s);
      assert Prune(s.zset.scores, e.at) == s.zset.scores;
    } else {
      assert Step(s, e).value.flips == s.flips && Step(s, e).value.zset == s.zset;
    }
  }

  ghost predicate FreshRun(s0: State, es: seq<Event>)
    requires Run(Step, s0, es).Some?
  {
    forall n: nat :: n <= |es| ==> Fresh(At(Step, s0, es, n))
  }

  lemma {:induction false} FreshRunIsExact(s0: State, es: seq<Event>, n: nat)
    requires OwnOnly(s0) && Booted(s0) && Exact(s0) && Alternating(s0)
    requires Run(Step, s0, es).Some? && FreshRun(s0, es) && n <= |es|
    ensures var s := At(Step, s0, es, n); OwnOnly(s) && Booted(s) && Exact(s) && Alternating(s)
    decreases n
  {
    if n == 0 {
      AtEnds(Step, s0, es);
    } else {
      FreshRunIsExact(s0, es, n - 1);
      StepAt(Step, s0, es, n - 1);
      var s, e := At(Step, s0, es, n - 1), es[n - 1];
      assert Fresh(s);
      OwnOnlyStays(s, e);
      BootedStays(s, e);
      ExactStays(s, e);
      AlternatingStays(s, e);
    }
  }

  /**
   While members are refreshed in time, an idle instance's part of the sorted set is exactly its local sockets.
   */
  lemma IdleInstanceIsExact(ttl: nat, t0: int, es: seq<Event>, i: nat)
    requires Run(Step, Init(ttl, t0), es).Some? && FreshRun(Init(ttl, t0), es)
    requires i in Run(Step, Init(ttl, t0), es).value.instances
    requires Run(Step, Init(ttl, t0), es).value.instances[i].queue == []
    ensures var s := Run(Step, Init(ttl, t0), es).value; Mine(s, i) == s.instances[i].local
  {
    FreshRunIsExact(Init(ttl, t0), es, |es|);
    AtEnds(Step, Init(ttl, t0), es);
  }

  function Count(flips: seq<bool>, online: bool): nat
  {
    if flips == [] then 0
    else Count(flips[..|flips| - 1], online) + (if flips[|flips| - 1] == online then 1 else 0)
  }

  /**
   Transitions alternate. Over all instances and any interleaving with heartbeats, the transitions reported in
   Redis order are online, offline, online, ...; one more online than offline exactly while somebody is online.
   */
  lemma TransitionsAlternate(ttl: nat, t0: int, es: seq<Event>)
    requires Run(Step, Init(ttl, t0), es).Some? && FreshRun(Init(ttl, t0), es)
    ensures var s := Run(Step, Init(ttl, t0), es).value;
            && Alternates(s.flips)
            && Count(s.flips, true) - Count(s.flips, false) == if s.zset.scores.Keys != {} then 1 else 0
  {
    FreshRunIsExact(Init(ttl, t0), es, |es|);
    AtEnds(Step, Init(ttl, t0), es);
    AlternatingCounts(Run(Step, Init(ttl, t0), es).value.flips);
  }

  lemma {:induction false} AlternatingCounts(flips: seq<bool>)
    requires Alternates(flips)
    ensures Count(flips, true) - Count(flips, false) == |flips| % 2
  {
    if flips != [] {
      AlternatingCounts(flips[..|flips| - 1]);
    }
  }

  lemma FirstOnline(ttl: nat) returns (es: seq<Event>, s: State)
    ensures Run(Step, Init(ttl, 0), es) == Some(s) && s.flips == [true]
    ensures s.ttl == ttl && s.now == 0 && s.zset.scores == map[Member(0, 1) := ttl]
    ensures 0 in s.instances && s.instances[0] == Instance({Member(0, 1)}, [])
  {
    hide Run;
    var s0 := Init(ttl, 0);
    es, s := Start(Step, s0);
    es, s := Extend(Step, s0, es, Boot(0));
    es, s := Extend(Step, s0, es, LocalRegister(0, 1));
    es, s := Extend(Step, s0, es, Execute(0));
  }

  /** Timely refreshes matter: let one member expire, and the next registration reports online a second time. */
  lemma ExpiryBreaksAlternation(ttl: nat) returns (es: seq<Event>, s: State)
    ensures Run(Step, Init(ttl, 0), es) == Some(s) && s.flips == [true, true]
  {
    var s0 := Init(ttl, 0);
    es, s := FirstOnline(ttl);
    hide Run, Init;
    es, s := Extend(Step, s0, es, Tick(ttl));
    es, s := Extend(Step, s0, es, LocalRegister(0, 2));
    assert Prune(Visible(s.zset, s.now), s.now) == map[];
    es, s := Extend(Step, s0, es, Execute(0));
  }

  // ---------- alternation without timely refreshes ----------

  /** The members that have not expired. */
  function Live(s: State): map<Member, int> { Prune(Visible(s.zset, s.now), s.now) }

  predicate Reports(s: State, e: Event)
  {
    e.Execute? && e.instance in s.instances && s.instances[e.instance].queue != [] &&
    !s.instances[e.instance].queue[0].Refresh?
  }

  /** Somebody goes or comes online and no register or unregister could tell: members expire, or a heartbeat adds some. */
  predicate Silent(s: State, e: Event)
    requires Step(s, e).Some?
  {
    !Reports(s, e) && (Live(s) == map[] <==> Live(Step(s, e).value) != map[])
  }

  ghost predicate NothingSilent(s0: State, es: seq<Event>)
    requires Run(Step, s0, es).Some?
  {
    forall n: nat :: n < |es| && Step(At(Step, s0, es, n), es[n]).Some? ==> !Silent(At(Step, s0, es, n), es[n])
  }

  ghost predicate InStep(s: State)
  {
    Alternates(s.flips) && (|s.flips| % 2 == 1 <==> Live(s) != map[])
  }

  ghost predicate NoLeftovers(s: State) { Live(s) == map[] ==> Visible(s.zset, s.now) == map[] }

  /** What a register or an unregister does to the live members, and reports. */
  lemma ReportsTheLive(s: State, i: nat)
    requires Step(s, Execute(i)).Some? && Reports(s, Execute(i)) && NoLeftovers(s) && s.ttl > 0
    ensures var s' := Step(s, Execute(i)).value;
            && s'.flips == s.flips + (if (Live(s) != map[]) == (Live(s') != map[]) then [] else [Live(s') != map[]])
            && NoLeftovers(s')
  {
    var c := s.instances[i].queue[0];
    var (z, flips) := RunCommand(s.zset, c, s.now, s.ttl);
    ExecuteShape(s, i);
    match c
    case Register(member) =>
      assert member in z.scores && z.scores[member] > s.now;
      assert member in Live(Step(s, Execute(i)).value);
    case Unregister(member) => UnregisterTheLive(s.zset, member, s.now, s.ttl);
  }

  lemma UnregisterTheLive(z: Zset, member: Member, now: int, ttl: nat)
    requires Prune(Visible(z, now), now) == map[] ==> Visible(z, now) == map[]
    ensures var (z', flips) := RunCommand(z, Unregister(member), now, ttl);
            var (before, after) := (Prune(Visible(z, now), now), Prune(Visible(z', now), now));
            && flips == (if (before != map[]) == (after != map[]) then [] else [after != map[]])
            && (after == map[] ==> Visible(z', now) == map[])
  {
    var (z', flips) := RunCommand(z, Unregister(member), now, ttl);
    var before := Prune(Visible(z, now), now);
    assert z'.scores == before - {member};
    assert Prune(Visible(z', now), now) == if now < z.expiresAt then before - {member} else map[];
    if now >= z.expiresAt {
      assert Visible(z, now) == map[];
    }
    if before - {member} == map[] && before != map[] {
      var m :| m in before;
      assert m == member by {
        assert m !in before - {member};
      }
    }
  }

  lemma OthersLeaveNoLeftovers(s: State, e: Event)
    requires Step(s, e).Some? && !Reports(s, e) && !Silent(s, e) && NoLeftovers(s)
    ensures NoLeftovers(Step(s, e).value) && Step(s, e).value.flips == s.flips
  {
    var s' := Step(s, e).value;
    match e
    case Execute(i) => RefreshLeavesNone(s, i);
    case Tick(_) => assert Visible(s'.zset, s'.now) != map[] ==> Visible(s.zset, s.now) == Visible(s'.zset, s'.now);
    case PruneForList(at) => assert Visible(s.zset, s.now) == map[] ==> Visible(s'.zset, s'.now) == map[];
    case _ => assert s'.zset == s.zset && s'.now == s.now;
  }

  lemma RefreshLeavesNone(s: State, i: nat)
    requires Step(s, Execute(i)).Some? && !Reports(s, Execute(i)) && NoLeftovers(s)
    ensures NoLeftovers(Step(s, Execute(i)).value) && Step(s, Execute(i)).value.flips == s.flips
  {
  }

  lemma InStepStays(s: State, e: Event)
    requires Step(s, e).Some? && !Silent(s, e) && InStep(s) && NoLeftovers(s) && s.ttl > 0
    ensures InStep(Step(s, e).value) && NoLeftovers(Step(s, e).value)
  {
    var s' := Step(s, e).value;
    if Reports(s, e) {
      ReportsTheLive(s, e.instance);
      hide Live, Step, Alternates, NoLeftovers;
      var (before, after) := (Live(s) != map[], Live(s') != map[]);
      FlipsExtend(s.flips, if before == after then [] else [after], before, after);
    } else {
      OthersLeaveNoLeftovers(s, e);
    }
  }

  /**
   Without any assumption about time: as long as nobody comes or goes unseen, the reported transitions alternate, and
   one more online than offline has been reported exactly while somebody is online.
   */
  lemma {:induction false} TransitionsAlternateUnlessSilent(ttl: nat, t0: int, es: seq<Event>, n: nat)
    requires ttl > 0 && Run(Step, Init(ttl, t0), es).Some? && NothingSilent(Init(ttl, t0), es) && n <= |es|
    ensures var s := At(Step, Init(ttl, t0), es, n);
            && InStep(s) && NoLeftovers(s) && s.ttl == ttl
            && Count(s.flips, true) - Count(s.flips, false) == if Live(s) != map[] then 1 else 0
  {
    var s0 := Init(ttl, t0);
    if n == 0 {
      AtEnds(Step, s0, es);
      assert Visible(s0.zset, s0.now) == map[] && Live(s0) == map[];
    } else {
      hide Run, At, InStep, NoLeftovers, Live, Silent;
      TransitionsAlternateUnlessSilent(ttl, t0, es, n - 1);
      StepAt(Step, s0, es, n - 1);
      TtlStays(At(Step, s0, es, n - 1), es[n - 1]);
      hide Step;
      InStepStays(At(Step, s0, es, n - 1), es[n - 1]);
    }
    InStepCounts(At(Step, s0, es, n));
  }

  lemma TtlStays(s: State, e: Event)
    requires Step(s, e).Some?
    ensures Step(s, e).value.ttl == s.ttl
  {
  }

  lemma InStepCounts(s: State)
    requires InStep(s)
    ensures Count(s.flips, true) - Count(s.flips, false) == if Live(s) != map[] then 1 else 0
  {
    AlternatingCounts(s.flips);
  }

  /** The condition is needed: once everybody has gone unseen, the next register of an idle instance reports twice. */
  lemma SilentEmptyingBreaks(s0: State, es: seq<Event>, s: State, i: nat, socket: nat) returns (es': seq<Event>)
    requires Run(Step, s0, es) == Some(s) && |s.flips| % 2 == 1 && Alternates(s.flips) && Live(s) == map[]
    requires i in s.instances && s.instances[i].queue == []
    ensures es' == es + [LocalRegister(i, socket), Execute(i)]
    ensures Run(Step, s0, es').Some? && !Alternates(Run(Step, s0, es').value.flips)
  {
    hide Run;
    var t;
    es', t := Extend(Step, s0, es, LocalRegister(i, socket));
    es', t := Extend(Step, s0, es', Execute(i));
    assert t.flips == s.flips + [true];
    assert t.flips[|s.flips|] && |s.flips| % 2 == 1;
  }

  /** And once somebody has come unseen, his unregister reports offline twice. */
  lemma SilentArrivalBreaks(s0: State, es: seq<Event>, s: State, i: nat, socket: nat) returns (es': seq<Event>)
    requires Run(Step, s0, es) == Some(s) && |s.flips| % 2 == 0 && Alternates(s.flips)
    requires i in s.instances && s.instances[i].queue == [] && Member(i, socket) in s.instances[i].local
    requires Live(s).Keys == {Member(i, socket)}
    ensures es' == es + [LocalUnregister(i, socket), Execute(i)]
    ensures Run(Step, s0, es').Some? && !Alternates(Run(Step, s0, es').value.flips)
  {
    hide Run;
    var t;
    var m := Member(i, socket);
    assert Prune(Visible(s.zset, s.now) - {m}, s.now) == map[] by {
      assert forall k :: k in Prune(Visible(s.zset, s.now) - {m}, s.now) ==> k in Live(s);
    }
    assert m in Live(s);
    es', t := Extend(Step, s0, es, LocalUnregister(i, socket));
    es', t := Extend(Step, s0, es', Execute(i));
    assert t.flips == s.flips + [false];
    assert !t.flips[|s.flips|] && |s.flips| % 2 == 0;
  }

  // ---------- who is online ----------

  /** Redis runs a command that gives `member` a new lease: its register, or a heartbeat that names it. */
  predicate Renews(s: State, e: Event, member: Member)
  {
    e.Execute? && e.instance in s.instances && s.instances[e.instance].queue != [] &&
    match s.instances[e.instance].queue[0]
    case Register(m) => m == member
    case Refresh(members) => member in members
    case Unregister(_) => false
  }

  predicate Removes(s: State, e: Event, member: Member)
  {
    e.Execute? && e.instance in s.instances && s.instances[e.instance].queue != [] &&
    s.instances[e.instance].queue[0] == Unregister(member)
  }

  /** The lease that event `j` gave is still running before event `n`: not over, and not given up in between. */
  ghost predicate Leased(s0: State, es: seq<Event>, j: nat, n: nat, member: Member)
    requires Run(Step, s0, es).Some? && n <= |es|
  {
    && j < n && Renews(At(Step, s0, es, j), es[j], member)
    && At(Step, s0, es, n).now < At(Step, s0, es, j).now + s0.ttl
    && forall k :: j < k < n ==> !Removes(At(Step, s0, es, k), es[k], member)
  }

  /** `member` is in the set with a lease to `until` at least, as the key is. */
  predicate LastsTo(s: State, member: Member, until: int)
  {
    member in s.zset.scores && s.zset.scores[member] >= until && s.zset.expiresAt >= until
  }

  lemma RenewalLasts(s: State, e: Event, member: Member)
    requires Step(s, e).Some? && Renews(s, e, member)
    ensures LastsTo(Step(s, e).value, member, s.now + s.ttl)
    ensures Step(s, e).value.zset.scores[member] == s.now + s.ttl
  {
    ExecuteShape(s, e.instance);
    hide Visible;
    var (z, _) := RunCommand(s.zset, s.instances[e.instance].queue[0], s.now, s.ttl);
    assert member in z.scores.Keys;
  }

  lemma LeaseStays(s: State, e: Event, member: Member, until: int)
    requires Step(s, e).Some? && LastsTo(s, member, until) && s.now < until <= s.now + s.ttl
    requires !Removes(s, e, member)
    ensures LastsTo(Step(s, e).value, member, until)
  {
    if e.Execute? {
      ExecuteShape(s, e.instance);
    }
  }

  lemma ClockAndTtl(s: State, e: Event)
    requires Step(s, e).Some?
    ensures Step(s, e).value.now >= s.now && Step(s, e).value.ttl == s.ttl
  {
  }

  lemma {:induction false} ClockIsMonotone(s0: State, es: seq<Event>, n: nat, m: nat)
    requires Run(Step, s0, es).Some? && n <= m <= |es|
    ensures At(Step, s0, es, n).now <= At(Step, s0, es, m).now && At(Step, s0, es, m).ttl == At(Step, s0, es, n).ttl
    decreases m
  {
    hide Run, At, Step;
    if n < m {
      ClockIsMonotone(s0, es, n, m - 1);
      StepAt(Step, s0, es, m - 1);
      ClockAndTtl(At(Step, s0, es, m - 1), es[m - 1]);
    }
  }

  lemma {:induction false} LeaseLasts(s0: State, es: seq<Event>, j: nat, n: nat, member: Member)
    requires Run(Step, s0, es).Some? && n <= |es| && Leased(s0, es, j, n, member)
    ensures LastsTo(At(Step, s0, es, n), member, At(Step, s0, es, j).now + s0.ttl)
    decreases n
  {
    hide Run, At, Step, Renews, Removes, LastsTo;
    var s := At(Step, s0, es, n - 1);
    AtEnds(Step, s0, es);
    StepAt(Step, s0, es, n - 1);
    ClockIsMonotone(s0, es, 0, j);
    ClockIsMonotone(s0, es, j, n - 1);
    ClockAndTtl(s, es[n - 1]);
    if j + 1 == n {
      RenewalLasts(s, es[j], member);
    } else {
      LeaseLasts(s0, es, j, n - 1, member);
      LeaseStays(s, es[n - 1], member, At(Step, s0, es, j).now + s0.ttl);
    }
  }

  /** Only a renewal gives a lease. */
  lemma OnlyRenewalsAdd(s: State, e: Event, member: Member, until: int)
    requires Step(s, e).Some? && !Renews(s, e, member)
    requires member in Step(s, e).value.zset.scores && Step(s, e).value.zset.scores[member] == until
    ensures member in s.zset.scores && s.zset.scores[member] == until && !Removes(s, e, member)
  {
    if e.Execute? {
      ExecuteShape(s, e.instance);
    }
  }

  /** `member` got its score from event `j`, and kept it since. */
  ghost predicate GotAt(s0: State, es: seq<Event>, j: nat, n: nat, member: Member, score: int)
    requires Run(Step, s0, es).Some? && n <= |es|
  {
    && j < n && Renews(At(Step, s0, es, j), es[j], member) && score == At(Step, s0, es, j).now + s0.ttl
    && forall k :: j < k < n ==> !Removes(At(Step, s0, es, k), es[k], member)
  }

  lemma GotLater(s0: State, es: seq<Event>, j: nat, n: nat, member: Member, score: int)
    requires Run(Step, s0, es).Some? && n < |es| && GotAt(s0, es, j, n, member, score)
    requires !Removes(At(Step, s0, es, n), es[n], member)
    ensures GotAt(s0, es, j, n + 1, member, score)
  {
    hide Run, At, Step, Renews, Removes;
  }

  lemma {:induction false} LeaseOf(s0: State, es: seq<Event>, n: nat, member: Member) returns (j: nat)
    requires Run(Step, s0, es).Some? && n <= |es| && s0.zset.scores == map[]
    requires member in At(Step, s0, es, n).zset.scores
    ensures GotAt(s0, es, j, n, member, At(Step, s0, es, n).zset.scores[member])
    decreases n
  {
    AtEnds(Step, s0, es);
    hide Run, At, Step, Renews, Removes, GotAt;
    var s, e, score := At(Step, s0, es, n - 1), es[n - 1], At(Step, s0, es, n).zset.scores[member];
    StepAt(Step, s0, es, n - 1);
    ClockIsMonotone(s0, es, 0, n - 1);
    if Renews(s, e, member) {
      RenewalLasts(s, e, member);
      j := n - 1;
      JustGot(s0, es, j, member, score);
    } else {
      OnlyRenewalsAdd(s, e, member, score);
      j := LeaseOf(s0, es, n - 1, member);
      GotLater(s0, es, j, n - 1, member, score);
    }
  }

  lemma JustGot(s0: State, es: seq<Event>, j: nat, member: Member, score: int)
    requires Run(Step, s0, es).Some? && j < |es| && Renews(At(Step, s0, es, j), es[j], member)
    requires score == At(Step, s0, es, j).now + s0.ttl
    ensures GotAt(s0, es, j, j + 1, member, score)
  {
    hide Run, At, Step, Renews, Removes;
  }

  /**
   Who is online. In every run a member is live exactly when some register or heartbeat that Redis ran less than a ttl ago
   named it, and no unregister of it ran since.
   */
  lemma LiveExactlyWhileLeased(ttl: nat, t0: int, es: seq<Event>, n: nat, member: Member)
    requires Run(Step, Init(ttl, t0), es).Some? && n <= |es|
    ensures member in Live(At(Step, Init(ttl, t0), es, n)) <==> exists j :: Leased(Init(ttl, t0), es, j, n, member)
  {
    hide Run, At, Step, Renews, Removes;
    var s0 := Init(ttl, t0);
    var s := At(Step, s0, es, n);
    if member in Live(s) {
      var j := LeaseOf(s0, es, n, member);
      assert Leased(s0, es, j, n, member);
    }
    if j :| Leased(s0, es, j, n, member) {
      LeaseLasts(s0, es, j, n, member);
    }
  }

  /** So a member that is registered, or named by a heartbeat, at least once in every ttl never goes offline. */
  lemma TimelyRenewalsKeepOnline(ttl: nat, t0: int, es: seq<Event>, n: nat, m: nat, member: Member)
    requires Run(Step, Init(ttl, t0), es).Some? && n < m <= |es|
    requires forall k :: n <= k < m ==> !Removes(At(Step, Init(ttl, t0), es, k), es[k], member)
    requires forall k :: n < k <= m ==>
               exists j :: n <= j < k && Renews(At(Step, Init(ttl, t0), es, j), es[j], member) &&
                           At(Step, Init(ttl, t0), es, k).now < At(Step, Init(ttl, t0), es, j).now + ttl
    ensures forall k :: n < k <= m ==> member in Live(At(Step, Init(ttl, t0), es, k))
  {
    hide Run, At, Step, Renews, Removes, Live;
    var s0 := Init(ttl, t0);
    forall k | n < k <= m ensures member in Live(At(Step, s0, es, k)) {
      var j :| n <= j < k && Renews(At(Step, s0, es, j), es[j], member) &&
               At(Step, s0, es, k).now < At(Step, s0, es, j).now + ttl;
      assert Leased(s0, es, j, k, member);
      LiveExactlyWhileLeased(ttl, t0, es, k, member);
    }
  }

  /** The socket has registered on its instance and not unregistered since. */
  ghost predicate RegisteredSince(es: seq<Event>, i: nat, socket: nat)
  {
    exists k :: 0 <= k < |es| && es[k] == LocalRegister(i, socket) &&
                forall l :: k < l < |es| ==> es[l] != LocalUnregister(i, socket)
  }

  lemma RegisteredStep(es: seq<Event>, e: Event, i: nat, socket: nat)
    ensures RegisteredSince(es + [e], i, socket) <==>
              e == LocalRegister(i, socket) || (RegisteredSince(es, i, socket) && e != LocalUnregister(i, socket))
  {
    var longer := es + [e];
    assert longer[|es|] == e && forall k :: 0 <= k < |es| ==> longer[k] == es[k];
    if RegisteredSince(longer, i, socket) && e != LocalRegister(i, socket) {
      var k :| 0 <= k < |longer| && longer[k] == LocalRegister(i, socket) &&
               forall l :: k < l < |longer| ==> longer[l] != LocalUnregister(i, socket);
      assert es[k] == LocalRegister(i, socket);
    }
    if RegisteredSince(es, i, socket) && e != LocalUnregister(i, socket) {
      var k :| 0 <= k < |es| && es[k] == LocalRegister(i, socket) &&
               forall l :: k < l < |es| ==> es[l] != LocalUnregister(i, socket);
      assert longer[k] == LocalRegister(i, socket);
    }
  }

  /** An instance's local sockets are those that registered with it and have not unregistered since. */
  lemma {:induction false} LocalIsRegistered(ttl: nat, t0: int, es: seq<Event>, i: nat, socket: nat)
    requires Run(Step, Init(ttl, t0), es).Some?
    ensures var s := Run(Step, Init(ttl, t0), es).value;
            RegisteredSince(es, i, socket) <==> i in s.instances && Member(i, socket) in s.instances[i].local
    decreases |es|
  {
    if es != [] {
      var before, e := es[..|es| - 1], es[|es| - 1];
      LocalIsRegistered(ttl, t0, before, i, socket);
      RunIsOwn(ttl, t0, before);
      assert es == before + [e];
      RegisteredStep(before, e, i, socket);
      var s := Run(Step, Init(ttl, t0), before).value;
      hide Run;
      LocalStepIs(s, e, i, socket);
    }
  }

  lemma LocalStepIs(s: State, e: Event, i: nat, socket: nat)
    requires OwnOnly(s) && Step(s, e).Some?
    ensures var t := Step(s, e).value;
            i in t.instances && Member(i, socket) in t.instances[i].local <==>
              || e == LocalRegister(i, socket)
              || (i in s.instances && Member(i, socket) in s.instances[i].local && e != LocalUnregister(i, socket))
  {
  }

  lemma RunIsOwn(ttl: nat, t0: int, es: seq<Event>)
    requires Run(Step, Init(ttl, t0), es).Some?
    ensures OwnOnly(Run(Step, Init(ttl, t0), es).value)
  {
    var s0 := Init(ttl, t0);
    AtEnds(Step, s0, es);
    forall s, e | OwnOnly(s) && Step(s, e).Some? ensures OwnOnly(Step(s, e).value) {
      OwnOnlyStays(s, e);
    }
    Always(Step, OwnOnly, s0, es, 0, |es|);
  }

  /** A heartbeat of an idle instance renews every socket that has registered there and not unregistered since. */
  lemma HeartbeatRenewsRegistered(ttl: nat, t0: int, es: seq<Event>, s: State, i: nat, socket: nat)
    requires Run(Step, Init(ttl, t0), es) == Some(s) && i in s.instances && s.instances[i].queue == []
    ensures Step(s, Heartbeat(i)).Some?
    ensures var t := Step(s, Heartbeat(i)).value;
            && Step(t, Execute(i)).Some?
            && (Renews(t, Execute(i), Member(i, socket)) <==> RegisteredSince(es, i, socket))
            && (RegisteredSince(es, i, socket) ==> Member(i, socket) in Live(Step(t, Execute(i)).value) || ttl == 0)
  {
    LocalIsRegistered(ttl, t0, es, i, socket);
    AtEnds(Step, Init(ttl, t0), es);
    ClockIsMonotone(Init(ttl, t0), es, 0, |es|);
    hide Run, RegisteredSince;
    var t := Step(s, Heartbeat(i)).value;
    assert t.instances[i].queue == [Refresh(s.instances[i].local)];
    if Renews(t, Execute(i), Member(i, socket)) {
      RenewalLasts(t, Execute(i), Member(i, socket));
    }
  }

  // ---------- the expiry of the key ----------

  /** Members were given at most a ttl, and the key at least as long as any of them. */
  ghost predicate KeyOutlivesMembers(s: State)
  {
    forall m :: m in s.zset.scores ==> s.zset.scores[m] <= s.zset.expiresAt && s.zset.scores[m] <= s.now + s.ttl
  }

  lemma KeyOutlivesStays(s: State, e: Event)
    requires KeyOutlivesMembers(s) && Step(s, e).Some?
    ensures KeyOutlivesMembers(Step(s, e).value)
  {
  }

  /**
   A command on the key, which may have expired, and the same command if the key were alive: they differ in the report of
   an unregister, exactly when the key is gone and the member was still in it. Then nothing in the key was live.
   */
  predicate ExpirySilences(z: Zset, c: Command, now: int, ttl: nat)
  {
    var ((z1, flips1), (z2, flips2)) :=
      (RunCommand(z, c, now, ttl), RunCommand(z.(expiresAt := now + 1), c, now, ttl));
    && z1.scores == z2.scores && (!c.Unregister? && z1.scores != map[] ==> z1 == z2)
    && (flips1 != flips2 <==> c.Unregister? && now >= z.expiresAt && c.member in z.scores)
    && (flips1 != flips2 ==> flips1 == [] && flips2 == [false] && Prune(z.scores, now) == map[])
  }

  lemma ExpiredOrAlive(z: Zset, c: Command, now: int, ttl: nat)
    requires forall m :: m in z.scores ==> z.scores[m] <= z.expiresAt
    ensures ExpirySilences(z, c, now, ttl)
  {
    if now >= z.expiresAt {
      assert Prune(z.scores, now) == map[];
      if c.Unregister? {
        assert Prune(z.scores - {c.member}, now) == map[];
      }
    }
  }

  /**
   `PEXPIRE` never changes what a register or a refresh does or reports, nor the members that an unregister leaves: when
   the key goes, every member has expired by itself. It changes the report of an unregister exactly when the key is gone
   and the member was still in it, which then had expired and was not yet pruned, with no live member beside it: the
   script removes before it prunes, so with the key alive it would still report offline.
   */
  lemma KeyExpiryOnlySilencesLateUnregisters(ttl: nat, t0: int, es: seq<Event>, c: Command)
    requires Run(Step, Init(ttl, t0), es).Some?
    ensures var s := Run(Step, Init(ttl, t0), es).value; ExpirySilences(s.zset, c, s.now, ttl)
  {
    KeyAlwaysOutlives(ttl, t0, es);
    hide Run, Step, RunCommand, Prune, ExpirySilences;
    var s := Run(Step, Init(ttl, t0), es).value;
    ExpiredOrAlive(s.zset, c, s.now, ttl);
  }

  lemma KeyAlwaysOutlives(ttl: nat, t0: int, es: seq<Event>)
    requires Run(Step, Init(ttl, t0), es).Some?
    ensures KeyOutlivesMembers(Run(Step, Init(ttl, t0), es).value)
  {
    var s0 := Init(ttl, t0);
    AtEnds(Step, s0, es);
    hide Step;
    forall s, e | KeyOutlivesMembers(s) && Step(s, e).Some?
      ensures KeyOutlivesMembers(Step(s, e).value)
    {
      KeyOutlivesStays(s, e);
    }
    Always(Step, KeyOutlivesMembers, s0, es, 0, |es|);
  }

  // ---------- without Redis ----------

  /** One instance alone: a store's local sockets, and the transitions that register and unregister report. */
  datatype LocalState = LocalState(sockets: set<nat>, flips: seq<bool>)

  datatype LocalEvent = RegisterSocket(socket: nat) | UnregisterSocket(socket: nat)

  function LocalStep(s: LocalState, e: LocalEvent): Option<LocalState>
  {
    match e
    case RegisterSocket(socket) =>
      Some(LocalState(s.sockets + {socket}, s.flips + if |s.sockets| > 0 then [] else [true]))
    case UnregisterSocket(socket) =>
      var left := s.sockets - {socket};
      Some(LocalState(left, s.flips + if socket in s.sockets && |left| == 0 then [false] else []))
  }

  ghost predicate LocalAlternating(s: LocalState)
  {
    Alternates(s.flips) && (|s.flips| % 2 == 1 <==> s.sockets != {})
  }

  lemma LocalStays(s: LocalState, e: LocalEvent)
    requires LocalAlternating(s) && LocalStep(s, e).Some?
    ensures LocalAlternating(LocalStep(s, e).value)
  {
    var t := LocalStep(s, e).value;
    assert e.RegisterSocket? ==> e.socket in t.sockets;
    hide Alternates;
    FlipsExtend(s.flips, t.flips[|s.flips|..], s.sockets != {}, t.sockets != {});
    assert t.flips == s.flips + t.flips[|s.flips|..];
  }

  /** Without Redis the transitions alternate too, with no assumption about time. */
  lemma LocalTransitionsAlternate(es: seq<LocalEvent>)
    requires Run(LocalStep, LocalState({}, []), es).Some?
    ensures var s := Run(LocalStep, LocalState({}, []), es).value;
            && Alternates(s.flips)
            && Count(s.flips, true) - Count(s.flips, false) == if s.sockets != {} then 1 else 0
  {
    AtEnds(LocalStep, LocalState({}, []), es);
    forall s, e | LocalAlternating(s) && LocalStep(s, e).Some? ensures LocalAlternating(LocalStep(s, e).value) {
      LocalStays(s, e);
    }
    Always(LocalStep, LocalAlternating, LocalState({}, []), es, 0, |es|);
    AlternatingCounts(Run(LocalStep, LocalState({}, []), es).value.flips);
  }
}
