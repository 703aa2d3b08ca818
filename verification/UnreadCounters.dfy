/**
 The denormalized unread counter of a conversation (src/repositories/ecommerce_chat_repository.ts): messages of
 one side, and the counter that the other side's readers see. The two counters of a conversation are two such
 machines on disjoint fields. With transactions a send or a read is one step; without them each MongoDB command
 is, and `updateMany` marks its documents one by one.
 */
module UnreadCounters {
  import opened Machine
  import opened Redis

  /**
   `unread` are the messages without `read_at`; `pending` those whose increment has not run; `owed` what each
   running `mark_read` has marked and not yet subtracted. History: how many increments a close `refused` and a
   crash `lost`, how much of the subtractions a crash made `forgotten`, and how much the clamp at zero swallowed.
   */
  datatype State = State(
    transactions: bool,
    closed: bool,
    counter: nat,
    messages: set<nat>,
    unread: set<nat>,
    pending: set<nat>,
    owed: map<nat, nat>,
    refused: nat,
    lost: nat,
    forgotten: nat,
    clamped: nat)

  function Init(transactions: bool): State { State(transactions, false, 0, {}, {}, {}, map[], 0, 0, 0, 0) }

  datatype Event =
    | Send(id: nat)                     // a transaction: insert and increment
    | ReadAll                           // a transaction: mark and subtract
    | Insert(id: nat)
    | Increment(id: nat)
    | StartReading(reader: nat)
    | MarkOne(reader: nat, id: nat)
    | Subtract(reader: nat)
    | CrashSending(id: nat)
    | CrashReading(reader: nat)
    | Close

  /** A subtraction clamped at zero. */
  function Less(counter: nat, n: nat): nat { if n > counter then 0 else counter - n }

  function Clamped(counter: nat, n: nat): nat { if n > counter then n - counter else 0 }

  function Step(s: State, e: Event): Option<State>
  {
    match e
    case Send(id) =>
      if !s.transactions || id in s.messages then None
      else if s.closed then Some(s)
      else Some(s.(messages := s.messages + {id}, unread := s.unread + {id}, counter := s.counter + 1))
    case ReadAll =>
      if !s.transactions then None
      else
        var n := |s.unread|;
        Some(s.(unread := {}, counter := Less(s.counter, n), clamped := s.clamped + Clamped(s.counter, n)))
    case Insert(id) =>
      if s.transactions || id in s.messages then None
      else Some(s.(messages := s.messages + {id}, unread := s.unread + {id}, pending := s.pending + {id}))
    case Increment(id) =>
      if id !in s.pending then None
      else if s.closed then Some(s.(pending := s.pending - {id}, refused := s.refused + 1))
      else Some(s.(pending := s.pending - {id}, counter := s.counter + 1))
    case StartReading(reader) =>
      if s.transactions || reader in s.owed then None else Some(s.(owed := s.owed[reader := 0]))
    case MarkOne(reader, id) =>
      if reader !in s.owed || id !in s.unread then None
      else Some(s.(unread := s.unread - {id}, owed := s.owed[reader := s.owed[reader] + 1]))
    case Subtract(reader) =>
      if reader !in s.owed then None
      else
        var n := s.owed[reader];
        Some(s.(owed := s.owed - {reader}, counter := Less(s.counter, n),
                clamped := s.clamped + Clamped(s.counter, n)))
    case CrashSending(id) =>
      if id !in s.pending then None else Some(s.(pending := s.pending - {id}, lost := s.lost + 1))
    case CrashReading(reader) =>
      if reader !in s.owed then None
      else Some(s.(owed := s.owed - {reader}, forgotten := s.forgotten + s.owed[reader]))
    case Close => Some(s.(closed := true))
  }

  // ---------- sums ----------

  ghost function Sum(m: map<nat, nat>): nat
  {
    if m == map[] then 0
    else
      var k :| k in m;
      m[k] + Sum(m - {k})
  }

  lemma {:induction false} SumSplit(m: map<nat, nat>, k: nat)
    requires k in m
    ensures Sum(m) == m[k] + Sum(m - {k})
    decreases |m|
  {
    var j :| j in m && Sum(m) == m[j] + Sum(m - {j});
    if j != k {
      SumSplit(m - {j}, k);
      SumSplit(m - {k}, j);
      assert m - {j} - {k} == m - {k} - {j};
    }
  }

  lemma SumPut(m: map<nat, nat>, k: nat, n: nat)
    ensures Sum(m[k := n]) == n + Sum(m) - if k in m then m[k] else 0
  {
    SumSplit(m[k := n], k);
    if k in m {
      SumSplit(m, k);
      assert m[k := n] - {k} == m - {k};
    } else {
      assert m[k := n] - {k} == m;
    }
  }

  // ---------- the books balance ----------

  /** The exact account of the counter. */
  ghost predicate Balanced(s: State)
  {
    s.counter + |s.pending| + s.refused + s.lost == |s.unread| + Sum(s.owed) + s.clamped + s.forgotten
  }

  ghost predicate Inv(s: State)
  {
    && Balanced(s) && s.unread <= s.messages && s.pending <= s.messages
    && (s.transactions ==> s.pending == {} && s.owed == map[])
    && (s.transactions ==> s.clamped == s.refused == s.lost == s.forgotten == 0)
    && (s.refused > 0 ==> s.closed)
  }

  lemma StepKeepsInv(s: State, e: Event)
    requires Inv(s) && Step(s, e).Some?
    ensures Inv(Step(s, e).value)
  {
    match e
    case StartReading(reader) => SumPut(s.owed, reader, 0);
    case MarkOne(reader, id) => SumPut(s.owed, reader, s.owed[reader] + 1);
    case Subtract(reader) => SumSplit(s.owed, reader);
    case CrashReading(reader) => SumSplit(s.owed, reader);
    case _ =>
  }

  lemma RunKeepsInv(transactions: bool, es: seq<Event>)
    requires Run(Step, Init(transactions), es).Some?
    ensures Inv(Run(Step, Init(transactions), es).value)
  {
    assert Inv(Init(transactions));
    AtEnds(Step, Init(transactions), es);
    hide Step, Inv;
    forall s, e | Inv(s) && Step(s, e).Some? ensures Inv(Step(s, e).value) {
      StepKeepsInv(s, e);
    }
    Always(Step, Inv, Init(transactions), es, 0, |es|);
  }

  lemma {:induction false} ModeStays(init: State, es: seq<Event>)
    requires Run(Step, init, es).Some?
    ensures Run(Step, init, es).value.transactions == init.transactions
    decreases |es|
  {
    if es != [] {
      ModeStays(init, es[..|es| - 1]);
    }
  }

  /** Event `e` stores the message `id`; a refused transaction stores nothing. */
  predicate Stores(s: State, e: Event, id: nat)
  {
    (e == Send(id) && !s.closed) || e == Insert(id)
  }

  /** Event `e` marks the message `id` as read. */
  predicate Reads(e: Event, id: nat) { e == ReadAll || (e.MarkOne? && e.id == id) }

  lemma UnreadStep(s: State, e: Event, id: nat)
    requires Step(s, e).Some? && s.unread <= s.messages
    ensures id in Step(s, e).value.unread <==> Stores(s, e, id) || (id in s.unread && !Reads(e, id))
    ensures Stores(s, e, id) ==> id !in s.messages
  {
  }

  /** Event `k` stored the message, and none before `n` marked it since. */
  ghost predicate UnreadSince(init: State, es: seq<Event>, k: nat, n: nat, id: nat)
    requires Run(Step, init, es).Some? && n <= |es|
  {
    k < n && Stores(At(Step, init, es, k), es[k], id) && forall l :: k < l < n ==> !Reads(es[l], id)
  }

  /** The unread messages are, at every moment, those that have been stored and not been marked since. */
  lemma {:induction false} UnreadIsStoredAndNotRead(transactions: bool, es: seq<Event>, n: nat, id: nat)
    requires Run(Step, Init(transactions), es).Some? && n <= |es|
    ensures id in At(Step, Init(transactions), es, n).unread <==> exists k :: UnreadSince(Init(transactions), es, k, n, id)
    decreases n
  {
    var init := Init(transactions);
    AtEnds(Step, init, es);
    hide Run, At, Step, Stores, Reads;
    if n > 0 {
      UnreadIsStoredAndNotRead(transactions, es, n - 1, id);
      StepAt(Step, init, es, n - 1);
      Prefix(Step, init, es, n - 1);
      RunKeepsInv(transactions, es[..n - 1]);
      UnreadStep(At(Step, init, es, n - 1), es[n - 1], id);
      OneMoreEvent(init, es, n - 1, n, id);
    }
  }

  lemma OneMoreEvent(init: State, es: seq<Event>, n: nat, m: nat, id: nat)
    requires Run(Step, init, es).Some? && n < |es| && m == n + 1
    ensures (exists k :: UnreadSince(init, es, k, m, id)) <==>
              Stores(At(Step, init, es, n), es[n], id) ||
              ((exists k :: UnreadSince(init, es, k, n, id)) && !Reads(es[n], id))
  {
    hide Run, At, Step, Stores, Reads;
    if Stores(At(Step, init, es, n), es[n], id) {
      assert UnreadSince(init, es, n, m, id);
    }
    if k: nat :| UnreadSince(init, es, k, n, id) {
      if !Reads(es[n], id) {
        assert UnreadSince(init, es, k, m, id);
      }
    }
    if k: nat :| UnreadSince(init, es, k, m, id) {
      if k < n {
        assert UnreadSince(init, es, k, n, id);
      }
    }
  }

  /** With transactions the counter is the number of unread messages in every state, and nothing is ever clamped. */
  lemma TransactionsCountExactly(es: seq<Event>)
    requires Run(Step, Init(true), es).Some?
    ensures var s := Run(Step, Init(true), es).value; s.counter == |s.unread| && s.clamped == 0
  {
    RunKeepsInv(true, es);
    ModeStays(Init(true), es);
  }

  /**
   Without transactions, once nothing is under way, the counter is off by exactly what was clamped or forgotten less
   what was refused or lost.
   */
  lemma QuiescentError(transactions: bool, es: seq<Event>)
    requires Run(Step, Init(transactions), es).Some?
    requires var s := Run(Step, Init(transactions), es).value; s.pending == {} && s.owed == map[]
    ensures var s := Run(Step, Init(transactions), es).value;
            s.counter - |s.unread| == s.clamped + s.forgotten - s.refused - s.lost
  {
    RunKeepsInv(transactions, es);
  }

  function Crashes(es: seq<Event>): nat
  {
    if es == [] then 0 else Crashes(es[..|es| - 1]) + if es[|es| - 1].CrashSending? then 1 else 0
  }

  /** The increments that came after a close. */
  function Late(es: seq<Event>): nat
  {
    if es == [] then 0
    else Late(es[..|es| - 1]) + if es[|es| - 1].Increment? && Close in es[..|es| - 1] then 1 else 0
  }

  /** What the balance calls lost and refused are the sends that crashed, and the increments that came after a close. */
  lemma {:induction false} ErrorsAreEvents(transactions: bool, es: seq<Event>)
    requires Run(Step, Init(transactions), es).Some?
    ensures var s := Run(Step, Init(transactions), es).value;
            s.lost == Crashes(es) && s.refused == Late(es) && (s.closed <==> Close in es)
    ensures var s := Run(Step, Init(transactions), es).value;
            (forall e :: e in es ==> !e.CrashReading?) ==> s.forgotten == 0
    decreases |es|
  {
    if es != [] {
      var before, e := es[..|es| - 1], es[|es| - 1];
      ErrorsAreEvents(transactions, before);
      assert es == before + [e];
      assert e in es && forall x :: x in es <==> x in before || x == e;
      var s := Run(Step, Init(transactions), before).value;
      hide Run;
      StepErrors(s, e);
      hide Step;
    }
  }

  lemma StepErrors(s: State, e: Event)
    requires Step(s, e).Some?
    ensures var t := Step(s, e).value;
            && t.lost == s.lost + (if e.CrashSending? then 1 else 0)
            && t.refused == s.refused + (if e.Increment? && s.closed then 1 else 0)
            && (t.closed <==> s.closed || e == Close)
            && (e.CrashReading? || t.forgotten == s.forgotten)
  {
  }

  /** While the conversation is not closed and no sender crashes, no reader is told of too few messages. */
  lemma NeverUnderReports(transactions: bool, es: seq<Event>)
    requires Run(Step, Init(transactions), es).Some?
    requires var s := Run(Step, Init(transactions), es).value; !s.closed && s.lost == 0
    ensures var s := Run(Step, Init(transactions), es).value;
            s.counter + |s.pending| >= |s.unread| + Sum(s.owed)
  {
    RunKeepsInv(transactions, es);
  }

  /** The clamp fires only for a `mark_read` that overtakes an increment, or after one that never came. */
  lemma ClampNeedsALateIncrement(transactions: bool, es: seq<Event>, reader: nat)
    requires Run(Step, Init(transactions), es).Some?
    requires var s := Run(Step, Init(transactions), es).value; reader in s.owed && s.owed[reader] > s.counter
    ensures var s := Run(Step, Init(transactions), es).value; s.pending != {} || s.closed || s.lost > 0
  {
    RunKeepsInv(transactions, es);
    var s := Run(Step, Init(transactions), es).value;
    SumSplit(s.owed, reader);
  }

  /** Reading a message between its insert and its increment leaves a counter that is one too high. */
  lemma ReadBeforeIncrementOverReports(id: nat, reader: nat)
    ensures var run := Run(Step, Init(false), [Insert(id), StartReading(reader), MarkOne(reader, id), Subtract(reader),
                                               Increment(id)]);
            && run.Some? && run.value.pending == {} && run.value.owed == map[]
            && run.value.counter == 1 && run.value.unread == {}
  {
    hide Run;
    var es, s;
    es, s := Start(Step, Init(false));
    es, s := Extend(Step, Init(false), es, Insert(id));
    es, s := Extend(Step, Init(false), es, StartReading(reader));
    es, s := Extend(Step, Init(false), es, MarkOne(reader, id));
    es, s := Extend(Step, Init(false), es, Subtract(reader));
    es, s := Extend(Step, Init(false), es, Increment(id));
    assert es == [Insert(id), StartReading(reader), MarkOne(reader, id), Subtract(reader), Increment(id)];
  }

  /** Closing between an insert and its increment leaves a counter that is one too low. */
  lemma CloseBeforeIncrementUnderReports(id: nat)
    ensures var run := Run(Step, Init(false), [Insert(id), Close, Increment(id)]);
            && run.Some? && run.value.pending == {} && run.value.owed == map[]
            && run.value.counter == 0 && run.value.unread == {id}
  {
    hide Run;
    var es, s;
    es, s := Start(Step, Init(false));
    es, s := Extend(Step, Init(false), es, Insert(id));
    es, s := Extend(Step, Init(false), es, Close);
    es, s := Extend(Step, Init(false), es, Increment(id));
    assert es == [Insert(id), Close, Increment(id)];
  }

  /** A sender that crashes between the two leaves it one too low as well. */
  lemma CrashedSendUnderReports(id: nat)
    ensures var run := Run(Step, Init(false), [Insert(id), CrashSending(id)]);
            && run.Some? && run.value.pending == {} && run.value.owed == map[]
            && run.value.counter == 0 && run.value.unread == {id}
  {
    hide Run;
    var es, s;
    es, s := Start(Step, Init(false));
    es, s := Extend(Step, Init(false), es, Insert(id));
    es, s := Extend(Step, Init(false), es, CrashSending(id));
    assert es == [Insert(id), CrashSending(id)];
  }

  /** A reader that crashes between marking and subtracting leaves it one too high. */
  lemma CrashedReadOverReports(id: nat, reader: nat)
    ensures var run := Run(Step, Init(false), [Insert(id), Increment(id), StartReading(reader), MarkOne(reader, id),
                                               CrashReading(reader)]);
            && run.Some? && run.value.pending == {} && run.value.owed == map[]
            && run.value.counter == 1 && run.value.unread == {}
  {
    hide Run;
    var es, s;
    es, s := Start(Step, Init(false));
    es, s := Extend(Step, Init(false), es, Insert(id));
    es, s := Extend(Step, Init(false), es, Increment(id));
    es, s := Extend(Step, Init(false), es, StartReading(reader));
    es, s := Extend(Step, Init(false), es, MarkOne(reader, id));
    es, s := Extend(Step, Init(false), es, CrashReading(reader));
    assert es == [Insert(id), Increment(id), StartReading(reader), MarkOne(reader, id), CrashReading(reader)];
  }

  /** With transactions a send to an open conversation adds one unread message, to a closed one none; a read leaves none. */
  lemma TransactionsAreWhole(es: seq<Event>, s: State, id: nat)
    requires Run(Step, Init(true), es) == Some(s) && id !in s.messages
    ensures Step(s, Send(id)).Some? && Step(s, ReadAll).Some?
    ensures var t := Step(s, Send(id)).value;
            if Close in es then t == s
            else t.unread == s.unread + {id} && t.counter == s.counter + 1 && t.messages == s.messages + {id}
    ensures var t := Step(s, ReadAll).value; t.unread == {} && t.counter == 0 && t.messages == s.messages
  {
    RunKeepsInv(true, es);
    ModeStays(Init(true), es);
    ErrorsAreEvents(true, es);
  }

  // ---------- both counters of one conversation, with transactions ----------

  datatype Side = WebsiteCustomer | StoreUser

  datatype Message = Message(sender: Side, read: bool)

  /** How many messages of `sender` the other side has not read. */
  function Unread(messages: seq<Message>, sender: Side): nat
  {
    if messages == [] then 0
    else
      var last := messages[|messages| - 1];
      Unread(messages[..|messages| - 1], sender) + if last.sender == sender && !last.read then 1 else 0
  }

  /** `updateMany` for one sender: every unread message of that side gets its `read_at`. */
  function MarkedRead(messages: seq<Message>, sender: Side): seq<Message>
  {
    seq(|messages|, i requires 0 <= i < |messages| =>
      if messages[i].sender == sender then messages[i].(read := true) else messages[i])
  }

  lemma {:induction false} MarkingReadsAll(messages: seq<Message>, sender: Side, other: Side)
    ensures Unread(MarkedRead(messages, sender), other) == if other == sender then 0 else Unread(messages, other)
  {
    if messages != [] {
      var shorter := messages[..|messages| - 1];
      assert MarkedRead(messages, sender)[..|messages| - 1] == MarkedRead(shorter, sender);
      MarkingReadsAll(shorter, sender, other);
    }
  }

  lemma OneMore(messages: seq<Message>, sender: Side, other: Side)
    ensures Unread(messages + [Message(sender, false)], other)
         == Unread(messages, other) + if other == sender then 1 else 0
  {
    assert (messages + [Message(sender, false)])[..|messages|] == messages;
  }

  class EcommerceConversation {
    var closed: bool
    var messages: seq<Message>
    var unreadStoreCount: nat
    var unreadCustomerCount: nat

    /** Each counter is what the other side has not read. */
    ghost predicate Valid()
      reads this
    {
      unreadStoreCount == Unread(messages, WebsiteCustomer) && unreadCustomerCount == Unread(messages, StoreUser)
    }

    constructor ()
      ensures Valid() && messages == [] && !closed
    {
      closed, messages, unreadStoreCount, unreadCustomerCount := false, [], 0, 0;
    }

    /** `create_customer_message` or `create_store_message`, committed or aborted as a whole. */
    method CreateMessage(sender: Side) returns (created: bool)
      requires Valid()
      modifies this
      ensures Valid() && created == !old(closed) && closed == old(closed)
      ensures messages == if created then old(messages) + [Message(sender, false)] else old(messages)
    {
      created := !closed;
      if created {
        OneMore(messages, sender, WebsiteCustomer);
        OneMore(messages, sender, StoreUser);
        hide Unread;
        messages := messages + [Message(sender, false)];
        if sender == WebsiteCustomer {
          unreadStoreCount := unreadStoreCount + 1;
        } else {
          unreadCustomerCount := unreadCustomerCount + 1;
        }
      }
    }

    /** `mark_read`: the subtraction never meets its clamp. */
    method MarkRead(reader: Side) returns (updatedCount: nat)
      requires Valid()
      modifies this
      ensures Valid() && closed == old(closed)
      ensures messages == MarkedRead(old(messages), if reader == StoreUser then WebsiteCustomer else StoreUser)
      ensures updatedCount == old(if reader == StoreUser then unreadStoreCount else unreadCustomerCount)
      ensures (if reader == StoreUser then unreadStoreCount else unreadCustomerCount) == 0
    {
      var sender := if reader == StoreUser then WebsiteCustomer else StoreUser;
      updatedCount := UpdateMany(sender);
      MarkingReadsAll(old(messages), sender, WebsiteCustomer);
      MarkingReadsAll(old(messages), sender, StoreUser);
      if updatedCount > 0 {
        if reader == StoreUser {
          unreadStoreCount := Less(unreadStoreCount, updatedCount);
        } else {
          unreadCustomerCount := Less(unreadCustomerCount, updatedCount);
        }
      }
    }

    method UpdateMany(sender: Side) returns (modifiedCount: nat)
      modifies this`messages
      ensures messages == MarkedRead(old(messages), sender) && modifiedCount == Unread(old(messages), sender)
    {
      modifiedCount := 0;
      for i := 0 to |messages|
        invariant |messages| == |old(messages)| && modifiedCount == Unread(old(messages)[..i], sender)
        invariant messages[i..] == old(messages)[i..]
        invariant messages[..i] == MarkedRead(old(messages)[..i], sender)
      {
        assert old(messages)[..i + 1][..i] == old(messages)[..i];
        assert messages[i] == old(messages)[i];
        if messages[i].sender == sender && !messages[i].read {
          messages := messages[i := messages[i].(read := true)];
          modifiedCount := modifiedCount + 1;
        }
      }
      assert messages[..|messages|] == messages && old(messages)[..|messages|] == old(messages);
    }
  }
}
