/**
 The head and the status of a conversation document (src/repositories/chat_repository.ts,
 src/repositories/ecommerce_chat_repository.ts). Message inserts race, and their pipeline updates reach the
 document in any order. Closing is done outside this service.
 */
module ConversationHead {
  import opened Machine
  import opened Redis

  // ---------- message ids ----------

  /** `$lt` on strings, by code unit; a missing `last_message_id` counts as the empty string. */
  predicate Less(a: string, b: string)
  {
    if b == "" then false
    else if a == "" then true
    else if a[0] != b[0] then a[0] < b[0]
    else Less(a[1..], b[1..])
  }

  lemma {:induction false} LessSelf(a: string)
    ensures !Less(a, a)
  {
    if a != "" {
      LessSelf(a[1..]);
    }
  }

  lemma {:induction false} LessOrder(a: string, b: string)
    ensures Less(a, b) ==> !Less(b, a)
    ensures !Less(a, b) && !Less(b, a) ==> a == b
  {
    if a != "" && b != "" && a[0] == b[0] {
      LessOrder(a[1..], b[1..]);
      assert a == [a[0]] + a[1..] && b == [b[0]] + b[1..];
    }
  }

  lemma {:induction false} LessTransitive(a: string, b: string, c: string)
    requires Less(a, b) && Less(b, c)
    ensures Less(a, c)
  {
    if a != "" && a[0] == b[0] == c[0] {
      LessTransitive(a[1..], b[1..], c[1..]);
    }
  }

  // ---------- one update ----------

  datatype Status = Waiting | Open | Closed

  /** `details` is what a head shows: preview, sender type and time. */
  datatype Thread<D> = Thread(status: Status, lastId: string, details: Option<D>, updatedAt: Option<int>)

  datatype Update<D> = Update(id: string, details: D, at: int, opens: bool)

  /** The monotone status of the update; the filter has already excluded `closed`. */
  function NextStatus(status: Status, opens: bool): Status
  {
    if status == Closed then Closed else if status == Open || opens then Open else Waiting
  }

  /** The update of a message, on a conversation that is not closed. */
  function Applied<D>(t: Thread<D>, u: Update<D>): Thread<D>
  {
    var newest := Less(t.lastId, u.id);
    Thread(NextStatus(t.status, u.opens),
           if newest then u.id else t.lastId,
           if newest then Some(u.details) else t.details,
           if u.at > (if t.updatedAt.None? then 0 else t.updatedAt.value) then Some(u.at) else t.updatedAt)
  }

  /** Filtered by `status: { $ne: 'closed' }`. */
  function Apply<D>(t: Thread<D>, u: Update<D>): Thread<D>
  {
    if t.status == Closed then t else Applied(t, u)
  }

  function ApplyAll<D>(t: Thread<D>, us: seq<Update<D>>): Thread<D>
    decreases |us|
  {
    if us == [] then t else ApplyAll(Apply(t, us[0]), us[1..])
  }

  // ---------- order independence ----------

  lemma ApplyCommutes<D>(t: Thread<D>, u: Update<D>, v: Update<D>)
    requires u.id == v.id ==> u == v
    ensures Apply(Apply(t, u), v) == Apply(Apply(t, v), u)
  {
    LessOrder(u.id, v.id);
    if Less(t.lastId, u.id) && Less(u.id, v.id) {
      LessTransitive(t.lastId, u.id, v.id);
    }
    if Less(t.lastId, v.id) && Less(v.id, u.id) {
      LessTransitive(t.lastId, v.id, u.id);
    }
    hide Less;
  }

  predicate SameIdSameUpdate<D(==)>(us: seq<Update<D>>)
  {
    forall u, v :: u in us && v in us && u.id == v.id ==> u == v
  }

  lemma {:induction false} ApplyAppend<D>(t: Thread<D>, us: seq<Update<D>>, vs: seq<Update<D>>)
    ensures ApplyAll(t, us + vs) == ApplyAll(ApplyAll(t, us), vs)
    decreases |us|
  {
    if us == [] {
      assert us + vs == vs;
    } else {
      assert (us + vs)[1..] == us[1..] + vs;
      ApplyAppend(Apply(t, us[0]), us[1..], vs);
    }
  }

  /** An update may be applied before any others instead of after them. */
  lemma {:induction false} ApplyFirst<D>(t: Thread<D>, us: seq<Update<D>>, u: Update<D>)
    requires SameIdSameUpdate(us + [u])
    ensures ApplyAll(t, us + [u]) == ApplyAll(t, [u] + us)
    decreases |us|
  {
    hide Apply;
    assert ([u] + us)[1..] == us;
    if us == [] {
      assert us + [u] == [u] + us;
    } else {
      assert (us + [u])[1..] == us[1..] + [u] && ([u] + us[1..])[1..] == us[1..];
      assert us[0] in us + [u] && u in us + [u];
      ApplyCommutes(t, us[0], u);
      assert forall v :: v in us[1..] + [u] ==> v in us + [u];
      ApplyFirst(Apply(t, us[0]), us[1..], u);
    }
  }

  /** However the updates of a conversation are ordered, the document ends the same. */
  lemma {:induction false} OrderDoesNotMatter<D>(t: Thread<D>, us: seq<Update<D>>, vs: seq<Update<D>>)
    requires multiset(us) == multiset(vs) && SameIdSameUpdate(us)
    ensures ApplyAll(t, us) == ApplyAll(t, vs)
    decreases |us|
  {
    if us == [] {
      assert multiset(vs) == multiset{};
      assert vs == [] by {
        assert |multiset(vs)| == |vs|;
      }
    } else {
      var u := us[0];
      var before, after := SplitAt(us, vs);
      hide ApplyAll, Apply;
      ApplyFirst(t, before, u);
      ApplyAppend(t, before + [u], after);
      ApplyAppend(t, [u] + before, after);
      assert ([u] + before) + after == [u] + (before + after);
      ApplyOne(t, u, before + after);
      ApplyOne(t, u, us[1..]);
      assert us == [u] + us[1..];
      assert forall v :: v in us[1..] ==> v in us;
      OrderDoesNotMatter(Apply(t, u), us[1..], before + after);
    }
  }

  lemma ApplyOne<D>(t: Thread<D>, u: Update<D>, us: seq<Update<D>>)
    ensures ApplyAll(t, [u] + us) == ApplyAll(Apply(t, u), us)
  {
    assert ([u] + us)[1..] == us;
  }

  lemma RemoveSame<T>(x: T, xs: seq<T>, before: seq<T>, after: seq<T>)
    requires multiset([x] + xs) == multiset(before + [x] + after)
    ensures multiset(xs) == multiset(before + after)
  {
    assert multiset([x] + xs) == multiset{x} + multiset(xs);
    assert multiset(before + [x] + after) == multiset(before) + multiset{x} + multiset(after);
    assert multiset(xs) == multiset([x] + xs) - multiset{x};
  }

  /** Where the first of `us` stands in a permutation of `us`. */
  lemma SplitAt<D>(us: seq<Update<D>>, vs: seq<Update<D>>) returns (before: seq<Update<D>>, after: seq<Update<D>>)
    requires us != [] && multiset(us) == multiset(vs) && SameIdSameUpdate(us)
    ensures vs == before + [us[0]] + after && multiset(us[1..]) == multiset(before + after)
    ensures SameIdSameUpdate(before + [us[0]])
  {
    var u := us[0];
    assert u in multiset(vs);
    var k :| 0 <= k < |vs| && vs[k] == u;
    before, after := vs[..k], vs[k + 1..];
    assert vs == before + [u] + after;
    assert us == [u] + us[1..];
    RemoveSame(u, us[1..], before, after);
    forall v | v in before + [u] ensures v in us {
      assert v in multiset(vs);
    }
  }

  // ---------- what it ends as ----------

  predicate AtMost(a: string, b: string) { !Less(b, a) }

  lemma AtMostTransitive(a: string, b: string, c: string)
    requires AtMost(a, b) && AtMost(b, c)
    ensures AtMost(a, c)
  {
    LessOrder(a, b);
    LessOrder(b, c);
    if Less(c, a) {
      if Less(a, b) {
        LessTransitive(c, a, b);
      }
    }
  }

  /** When a conversation was last touched; one without a time has not been since the epoch. */
  function TouchedAt<D>(t: Thread<D>): int { if t.updatedAt.None? then 0 else t.updatedAt.value }

  /** The latest time of all updates is the conversation's. */
  lemma {:induction false} UpdatedAtIsLatest<D>(t: Thread<D>, us: seq<Update<D>>)
    requires t.status != Closed
    ensures var r := ApplyAll(t, us);
            && (forall u :: u in us ==> u.at <= TouchedAt(r)) && TouchedAt(t) <= TouchedAt(r)
            && (r.updatedAt == t.updatedAt || exists u :: u in us && r.updatedAt == Some(u.at))
    decreases |us|
  {
    if us != [] {
      hide Less;
      var first := Apply(t, us[0]);
      UpdatedAtIsLatest(first, us[1..]);
      assert us == [us[0]] + us[1..];
    }
  }

  /** The head is the greatest id seen, with that message's details, and the status says whether any update opened. */
  lemma {:induction false} HeadIsGreatest<D>(t: Thread<D>, us: seq<Update<D>>)
    requires t.status != Closed
    ensures var r := ApplyAll(t, us);
            && AtMost(t.lastId, r.lastId) && (forall u :: u in us ==> AtMost(u.id, r.lastId))
            && ((r.lastId == t.lastId && r.details == t.details) ||
                (exists u :: u in us && r.lastId == u.id && r.details == Some(u.details)))
            && (r.status == Open <==> t.status == Open || exists u :: u in us && u.opens)
            && r.status != Closed
    decreases |us|
  {
    LessSelf(t.lastId);
    if us != [] {
      var first := Apply(t, us[0]);
      HeadIsGreatest(first, us[1..]);
      var r := ApplyAll(first, us[1..]);
      LessOrder(t.lastId, us[0].id);
      LessSelf(us[0].id);
      AtMostTransitive(t.lastId, first.lastId, r.lastId);
      AtMostTransitive(us[0].id, first.lastId, r.lastId);
      hide Less;
      assert us == [us[0]] + us[1..];
    }
  }

  // ---------- runs of one conversation ----------

  datatype Details = Details(preview: string, senderType: string, sentAt: int)

  datatype Sides = Sides(originAssigned: bool, targetAssigned: bool)

  /** `should_open_thread_after_message`, on the sides as last read. */
  predicate ShouldOpen(target: string, sender: string, sides: Sides)
  {
    sender == target || (sides.originAssigned && sides.targetAssigned)
  }

  /**
   `pending` are inserted messages whose update has not run, `orphans` those whose update found the conversation
   closed; `applied` is the history of updates.
   */
  datatype State = State(
    target: string,
    transactions: bool,
    thread: Thread<Details>,
    messages: map<string, Update<Details>>,
    pending: set<string>,
    orphans: set<string>,
    applied: seq<Update<Details>>)

  datatype Event =
    | Commit(id: string, details: Details, sender: string, sides: Sides)    // insert and update in one
    | Insert(id: string, details: Details, sender: string, sides: Sides)
    | RunUpdate(id: string)
    | Close

  function NewThread(createdAt: int): Thread<Details> { Thread(Waiting, "", None, Some(createdAt)) }

  function Init(target: string, transactions: bool, createdAt: int): State
  {
    State(target, transactions, NewThread(createdAt), map[], {}, {}, [])
  }

  function Put(s: State, u: Update<Details>): State
  {
    s.(thread := Apply(s.thread, u), applied := s.applied + [u])
  }

  predicate Fresh(s: State, id: string) { id != "" && id !in s.messages }

  function Step(s: State, e: Event): Option<State>
  {
    match e
    case Commit(id, details, sender, sides) =>
      if !s.transactions || !Fresh(s, id) then None
      else if s.thread.status == Closed then Some(s)
      else
        var u := Update(id, details, details.sentAt, ShouldOpen(s.target, sender, sides));
        Some(Put(s.(messages := s.messages[id := u]), u))
    case Insert(id, details, sender, sides) =>
      if s.transactions || !Fresh(s, id) then None
      else
        var u := Update(id, details, details.sentAt, ShouldOpen(s.target, sender, sides));
        Some(s.(messages := s.messages[id := u], pending := s.pending + {id}))
    case RunUpdate(id) =>
      if id !in s.pending || id !in s.messages then None
      else
        var taken := s.(pending := s.pending - {id});
        Some(if s.thread.status == Closed then taken.(orphans := s.orphans + {id}) else Put(taken, s.messages[id]))
    case Close => Some(s.(thread := s.thread.(status := Closed)))
  }

  ghost predicate MessagesOk(s: State)
  {
    && (forall id :: id in s.messages ==> id != "" && s.messages[id].id == id)
    && s.pending <= s.messages.Keys && s.orphans <= s.messages.Keys
    && (s.transactions ==> s.pending == {} && s.orphans == {})
    && (s.orphans != {} ==> s.thread.status == Closed)
  }

  ghost predicate HeadOk(s: State)
  {
    && (forall id :: id in s.messages && id !in s.pending && id !in s.orphans ==> AtMost(id, s.thread.lastId))
    && (if s.thread.lastId == "" then s.thread.details == None
        else s.thread.lastId in s.messages && s.thread.lastId !in s.pending && s.thread.lastId !in s.orphans &&
             s.thread.details == Some(s.messages[s.thread.lastId].details))
  }

  ghost predicate AppliedOk(s: State)
  {
    && (forall i, j :: 0 <= i < j < |s.applied| ==> s.applied[i].id != s.applied[j].id)
    && (forall u :: u in s.applied <==> u.id in s.messages && u.id !in s.pending && u.id !in s.orphans && s.messages[u.id] == u)
  }

  ghost predicate Inv(s: State) { MessagesOk(s) && HeadOk(s) && AppliedOk(s) }

  lemma ApplyHead(t: Thread<Details>, u: Update<Details>)
    requires t.status != Closed && u.id != ""
    ensures var r := Apply(t, u);
            && AtMost(u.id, r.lastId) && AtMost(t.lastId, r.lastId) && r.lastId != ""
            && ((r.lastId == u.id && r.details == Some(u.details)) || (r.lastId == t.lastId && r.details == t.details))
  {
    LessOrder(t.lastId, u.id);
    LessSelf(u.id);
    LessSelf(t.lastId);
  }

  lemma PutKeepsInv(s: State, u: Update<Details>)
    requires MessagesOk(s) && s.thread.status != Closed && u.id in s.messages && s.messages[u.id] == u
    requires HeadOk(s.(messages := s.messages - {u.id}))
    requires AppliedOk(s.(messages := s.messages - {u.id})) && u.id !in s.pending && u.id !in s.orphans
    ensures Inv(Put(s, u))
  {
    var t := Put(s, u);
    ApplyHead(s.thread, u);
    forall id | id in t.messages && id !in t.pending && id !in t.orphans ensures AtMost(id, t.thread.lastId) {
      if id != u.id {
        AtMostTransitive(id, s.thread.lastId, t.thread.lastId);
      }
    }
    hide Apply, AtMost;
    assert forall v :: v in t.applied <==> v in s.applied || v == u;
  }

  lemma StepKeepsInv(s: State, e: Event)
    requires Inv(s) && Step(s, e).Some?
    ensures Inv(Step(s, e).value)
  {
    hide AtMost, Apply;
    match e
    case Commit(id, details, sender, sides) =>
      if s.thread.status != Closed {
        var u := Update(id, details, details.sentAt, ShouldOpen(s.target, sender, sides));
        var inserted := s.(messages := s.messages[id := u]);
        assert inserted.messages - {id} == s.messages;
        PutKeepsInv(inserted, u);
      }
    case Insert(id, details, sender, sides) =>
    case RunUpdate(id) =>
      if s.thread.status != Closed {
        var taken := s.(pending := s.pending - {id});
        PutKeepsInv(taken, s.messages[id]);
      }
    case Close =>
  }

  lemma RunKeepsInv(init: State, es: seq<Event>)
    requires Inv(init) && Run(Step, init, es).Some?
    ensures Inv(Run(Step, init, es).value)
  {
    hide Step, Inv;
    AtEnds(Step, init, es);
    forall s, e | Inv(s) && Step(s, e).Some? ensures Inv(Step(s, e).value) {
      StepKeepsInv(s, e);
    }
    Always(Step, Inv, init, es, 0, |es|);
  }

  // ---------- theorems ----------

  /** The head is the thread's greatest message, with its details. */
  ghost predicate HeadIsLatest(s: State)
  {
    && (s.thread.lastId == "" <==> s.messages == map[])
    && (s.thread.lastId != "" ==>
          s.thread.lastId in s.messages && s.thread.details == Some(s.messages[s.thread.lastId].details))
    && (forall id :: id in s.messages ==> AtMost(id, s.thread.lastId))
  }

  /**
   With transactions the head is always the greatest message of the thread. Without them it is exactly when no
   message that has not reached the document is greater; in particular whenever none is pending or orphaned.
   */
  lemma HeadAgrees(target: string, transactions: bool, createdAt: int, es: seq<Event>)
    requires Run(Step, Init(target, transactions, createdAt), es).Some?
    ensures var s := Run(Step, Init(target, transactions, createdAt), es).value;
            && (HeadIsLatest(s) <==> forall id :: id in s.pending + s.orphans ==> AtMost(id, s.thread.lastId))
            && (transactions ==> HeadIsLatest(s))
  {
    var init := Init(target, transactions, createdAt);
    RunKeepsInv(init, es);
    ConstantsStay(init, es);
    var s := Run(Step, init, es).value;
    hide Run, Step;
    assert forall id :: AtMost(id, "") <==> id == "";
    hide AtMost;
  }

  lemma {:induction false} ConstantsStay(init: State, es: seq<Event>)
    requires Run(Step, init, es).Some?
    ensures Run(Step, init, es).value.transactions == init.transactions && Run(Step, init, es).value.target == init.target
    decreases |es|
  {
    if es != [] {
      ConstantsStay(init, es[..|es| - 1]);
    }
  }

  /** A message that nothing disturbs reaches an open conversation: it is stored, and the head is it or a greater one. */
  lemma UndisturbedMessage(init: State, es: seq<Event>, s: State, id: string, details: Details, sender: string, sides: Sides)
    returns (fs: seq<Event>, t: State)
    requires Inv(init) && Run(Step, init, es) == Some(s) && Fresh(s, id) && s.thread.status != Closed
    ensures es <= fs && Run(Step, init, fs) == Some(t) && t.messages.Keys == s.messages.Keys + {id}
    ensures id !in t.pending && id !in t.orphans && t.messages[id].details == details
    ensures AtMost(id, t.thread.lastId)
    ensures t.thread.details == if Less(s.thread.lastId, id) then Some(details) else s.thread.details
  {
    hide Run, Less;
    if s.transactions {
      fs, t := Extend(Step, init, es, Commit(id, details, sender, sides));
    } else {
      fs, t := Extend(Step, init, es, Insert(id, details, sender, sides));
      fs, t := Extend(Step, init, fs, RunUpdate(id));
    }
    RunKeepsInv(init, fs);
    assert id in t.messages.Keys;
  }

  /** Closing between an insert and its update leaves a message that the head does not show, whatever was there. */
  lemma CloseHidesTheLastMessage(init: State, id: string, details: Details, sender: string, sides: Sides)
    requires Inv(init) && !init.transactions && Fresh(init, id) && Less(init.thread.lastId, id)
    ensures var run := Run(Step, init, [Insert(id, details, sender, sides), Close, RunUpdate(id)]);
            run.Some? && !HeadIsLatest(run.value) && run.value.pending == init.pending && id in run.value.messages
  {
    var es, s;
    hide Run;
    es, s := Start(Step, init);
    es, s := Extend(Step, init, es, Insert(id, details, sender, sides));
    es, s := Extend(Step, init, es, Close);
    es, s := Extend(Step, init, es, RunUpdate(id));
    assert es == [Insert(id, details, sender, sides), Close, RunUpdate(id)];
    assert s.thread.lastId == init.thread.lastId;
  }

  function Rank(status: Status): nat
  {
    match status
    case Waiting => 0
    case Open => 1
    case Closed => 2
  }

  /** The status never moves back, and nothing changes a closed conversation. */
  lemma {:induction false} StatusOnlyMovesForward(init: State, es: seq<Event>, n: nat, m: nat)
    requires Run(Step, init, es).Some? && n <= m <= |es|
    ensures var (s, t) := (At(Step, init, es, n), At(Step, init, es, m));
            Rank(s.thread.status) <= Rank(t.thread.status) && (s.thread.status == Closed ==> t.thread == s.thread)
    decreases m
  {
    if n < m {
      StatusOnlyMovesForward(init, es, n, m - 1);
      StepAt(Step, init, es, m - 1);
    }
  }

  /** Event `e` sends a message from the target store, or one on a conversation with an attendant on both sides. */
  predicate Opens(e: Event, target: string)
  {
    (e.Commit? || e.Insert?) && (e.sender == target || (e.sides.originAssigned && e.sides.targetAssigned))
  }

  predicate Sends(e: Event, id: string) { (e.Commit? || e.Insert?) && e.id == id }

  /** Event `k` ends the wait: a close, an opening message in a transaction, or the update of one inserted before. */
  ghost predicate EndsWaiting(es: seq<Event>, k: nat, target: string)
    requires k < |es|
  {
    || es[k] == Close
    || (es[k].Commit? && Opens(es[k], target))
    || (es[k].RunUpdate? && exists j :: 0 <= j < k && Sends(es[j], es[k].id) && Opens(es[j], target))
  }

  /** The stored message `u` is what event `j` sent. */
  ghost predicate SentAs(es: seq<Event>, j: nat, u: Update<Details>, target: string)
  {
    j < |es| && Sends(es[j], u.id) && u.details == es[j].details && u.at == es[j].details.sentAt &&
    (u.opens <==> Opens(es[j], target))
  }

  /** Every message was sent, and without transactions every send was stored. */
  ghost predicate AllSent(es: seq<Event>, s: State, target: string)
  {
    && s.target == target
    && (forall id :: id in s.messages ==> exists j :: SentAs(es, j, s.messages[id], target))
    && (forall j :: 0 <= j < |es| ==>
          && (es[j].Commit? ==> s.transactions)
          && (es[j].Insert? ==>
                !s.transactions && es[j].id in s.messages && SentAs(es, j, s.messages[es[j].id], target)))
  }

  lemma SentLater(es: seq<Event>, e: Event, j: nat, u: Update<Details>, target: string)
    ensures SentAs(es, j, u, target) ==> SentAs(es + [e], j, u, target)
  {
  }

  lemma StepKeepsSent(es: seq<Event>, s: State, e: Event, target: string)
    requires AllSent(es, s, target) && MessagesOk(s) && Step(s, e).Some?
    ensures AllSent(es + [e], Step(s, e).value, target)
  {
    hide Apply;
    var t := Step(s, e).value;
    var longer := es + [e];
    assert longer[|es|] == e;
    forall id | id in t.messages ensures exists j :: SentAs(longer, j, t.messages[id], target) {
      if id in s.messages && t.messages[id] == s.messages[id] {
        var j :| SentAs(es, j, s.messages[id], target);
        SentLater(es, e, j, s.messages[id], target);
      } else {
        assert SentAs(longer, |es|, t.messages[id], target);
      }
    }
    forall j | 0 <= j < |longer| && longer[j].Insert?
      ensures longer[j].id in t.messages && SentAs(longer, j, t.messages[longer[j].id], target)
    {
      if j < |es| {
        assert longer[j] == es[j];
        SentLater(es, e, j, s.messages[es[j].id], target);
      }
    }
  }

  lemma {:induction false} RunIsSent(target: string, transactions: bool, createdAt: int, es: seq<Event>)
    requires Run(Step, Init(target, transactions, createdAt), es).Some?
    ensures AllSent(es, Run(Step, Init(target, transactions, createdAt), es).value, target)
    decreases |es|
  {
    if es != [] {
      var init := Init(target, transactions, createdAt);
      var before, e := es[..|es| - 1], es[|es| - 1];
      RunIsSent(target, transactions, createdAt, before);
      RunKeepsInv(init, before);
      assert es == before + [e];
      hide Run, Step, AllSent;
      StepKeepsSent(before, Run(Step, init, before).value, e, target);
    }
  }

  /** Every message of the conversation was sent, with those details, at that time; by whom decides whether it opens. */
  lemma MessagesWereSent(target: string, transactions: bool, createdAt: int, es: seq<Event>, id: string) returns (j: nat)
    requires Run(Step, Init(target, transactions, createdAt), es).Some?
    requires id in Run(Step, Init(target, transactions, createdAt), es).value.messages
    ensures SentAs(es, j, Run(Step, Init(target, transactions, createdAt), es).value.messages[id], target)
  {
    RunIsSent(target, transactions, createdAt, es);
    hide Run, Step;
    j :| SentAs(es, j, Run(Step, Init(target, transactions, createdAt), es).value.messages[id], target);
  }

  lemma EndsEarlier(es: seq<Event>, e: Event, k: nat, target: string)
    requires k < |es|
    ensures EndsWaiting(es + [e], k, target) <==> EndsWaiting(es, k, target)
  {
    var longer := es + [e];
    assert forall j :: 0 <= j < |es| ==> longer[j] == es[j];
  }

  lemma LastEndsWaiting(es: seq<Event>, s: State, e: Event, target: string)
    requires AllSent(es, s, target) && MessagesOk(s) && Step(s, e).Some?
    ensures Step(s, e).value.thread.status != Waiting <==>
              s.thread.status != Waiting || EndsWaiting(es + [e], |es|, target)
  {
    hide Less;
    var longer := es + [e];
    assert longer[|es|] == e && forall j :: 0 <= j < |es| ==> longer[j] == es[j];
    if e.RunUpdate? {
      var u := s.messages[e.id];
      var i: nat :| SentAs(es, i, u, target);
      if j :| 0 <= j < |es| && Sends(es[j], e.id) && Opens(es[j], target) {
        assert es[j].Insert?;
        assert SentAs(es, j, s.messages[es[j].id], target);
      }
      assert longer[i] == es[i];
    }
  }

  /**
   When a conversation stops waiting, without exception: it was closed, or somebody of the target store sent a message, or
   anybody sent one with an attendant on both sides; and that message was committed, or its update has run.
   */
  lemma {:induction false} WaitsUntilOpened(target: string, transactions: bool, createdAt: int, es: seq<Event>)
    requires Run(Step, Init(target, transactions, createdAt), es).Some?
    ensures Run(Step, Init(target, transactions, createdAt), es).value.thread.status != Waiting <==>
              exists k :: 0 <= k < |es| && EndsWaiting(es, k, target)
    decreases |es|
  {
    if es != [] {
      var init := Init(target, transactions, createdAt);
      var before, e := es[..|es| - 1], es[|es| - 1];
      WaitsUntilOpened(target, transactions, createdAt, before);
      RunIsSent(target, transactions, createdAt, before);
      RunKeepsInv(init, before);
      assert es == before + [e];
      var s := Run(Step, init, before).value;
      LastEndsWaiting(before, s, e, target);
      hide Run, Step, AllSent, EndsWaiting, Inv;
      forall k | 0 <= k < |before| ensures EndsWaiting(es, k, target) <==> EndsWaiting(before, k, target) {
        EndsEarlier(before, e, k, target);
      }
    }
  }

  /** Once opened, the conversation never waits again. */
  lemma OpeningLasts(target: string, transactions: bool, createdAt: int, es: seq<Event>, k: nat, m: nat)
    requires Run(Step, Init(target, transactions, createdAt), es).Some? && k < m <= |es|
    requires EndsWaiting(es, k, target)
    ensures At(Step, Init(target, transactions, createdAt), es, m).thread.status != Waiting
  {
    var init := Init(target, transactions, createdAt);
    Prefix(Step, init, es, m);
    WaitsUntilOpened(target, transactions, createdAt, es[..m]);
    hide Run, Step;
    assert forall j :: 0 <= j < m ==> es[..m][j] == es[j];
    assert EndsWaiting(es[..m], k, target);
  }

  /** A message from the target store, committed or refused because of a close, leaves the conversation not waiting. */
  lemma TargetReplyEndsWaiting(init: State, es: seq<Event>, i: nat, m: nat)
    requires Run(Step, init, es).Some? && i < m <= |es|
    requires es[i].Commit? && es[i].sender == init.target
    ensures At(Step, init, es, m).thread.status != Waiting
  {
    Prefix(Step, init, es, i);
    ConstantsStay(init, es[..i]);
    StepAt(Step, init, es, i);
    StatusOnlyMovesForward(init, es, i + 1, m);
    hide Run, At;
  }

  ghost predicate Replayed(s: State, createdAt: int)
  {
    s.thread.status != Closed ==> s.thread == ApplyAll(NewThread(createdAt), s.applied)
  }

  lemma {:induction false} RunIsReplay(target: string, transactions: bool, createdAt: int, es: seq<Event>)
    requires Run(Step, Init(target, transactions, createdAt), es).Some?
    ensures Replayed(Run(Step, Init(target, transactions, createdAt), es).value, createdAt)
    decreases |es|
  {
    var init := Init(target, transactions, createdAt);
    if es != [] {
      RunIsReplay(target, transactions, createdAt, es[..|es| - 1]);
      var s := Run(Step, init, es[..|es| - 1]).value;
      var e := es[|es| - 1];
      hide Run;
      StepReplays(s, e, createdAt);
    }
  }

  lemma StepReplays(s: State, e: Event, createdAt: int)
    requires Replayed(s, createdAt) && Step(s, e).Some?
    ensures Replayed(Step(s, e).value, createdAt)
  {
    if e.Commit? || e.RunUpdate? {
      var t := Step(s, e).value;
      if t.applied != s.applied {
        ApplyAppend(NewThread(createdAt), s.applied, [t.applied[|s.applied|]]);
        assert t.applied == s.applied + [t.applied[|s.applied|]];
      }
    }
    hide Apply, ApplyAll;
  }

  /** Two races over the same messages, both over and neither closed, leave the same document. */
  lemma SameMessagesSameThread(target: string, transactions: bool, createdAt: int, es: seq<Event>, fs: seq<Event>)
    requires Run(Step, Init(target, transactions, createdAt), es).Some?
    requires Run(Step, Init(target, transactions, createdAt), fs).Some?
    requires var s := Run(Step, Init(target, transactions, createdAt), es).value;
             var t := Run(Step, Init(target, transactions, createdAt), fs).value;
             && s.messages == t.messages && s.thread.status != Closed && t.thread.status != Closed
             && s.pending == {} && t.pending == {}
    ensures Run(Step, Init(target, transactions, createdAt), es).value.thread
         == Run(Step, Init(target, transactions, createdAt), fs).value.thread
  {
    var init := Init(target, transactions, createdAt);
    RunKeepsInv(init, es);
    RunKeepsInv(init, fs);
    RunIsReplay(target, transactions, createdAt, es);
    RunIsReplay(target, transactions, createdAt, fs);
    var (s, t) := (Run(Step, init, es).value, Run(Step, init, fs).value);
    hide Run, Step, ApplyAll, HeadOk;
    assert forall u :: u in s.applied <==> u in t.applied;
    SameElements(s.applied, t.applied);
    OrderDoesNotMatter(NewThread(createdAt), s.applied, t.applied);
  }

  /** Lists without repetition that hold the same elements are permutations of each other. */
  lemma SameElements<T>(xs: seq<T>, ys: seq<T>)
    requires forall i, j :: 0 <= i < j < |xs| ==> xs[i] != xs[j]
    requires forall i, j :: 0 <= i < j < |ys| ==> ys[i] != ys[j]
    requires forall x :: x in xs <==> x in ys
    ensures multiset(xs) == multiset(ys)
  {
    forall x ensures multiset(xs)[x] == multiset(ys)[x] {
      AtMostOnce(xs, x);
      AtMostOnce(ys, x);
    }
  }

  lemma {:induction false} AtMostOnce<T>(xs: seq<T>, x: T)
    requires forall i, j :: 0 <= i < j < |xs| ==> xs[i] != xs[j]
    ensures multiset(xs)[x] == if x in xs then 1 else 0
  {
    if xs != [] {
      assert xs == [xs[0]] + xs[1..];
      AtMostOnce(xs[1..], x);
    }
  }
}
