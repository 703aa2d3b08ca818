/**
 Sending a message with a client message id (src/repositories/chat_repository.ts,
 src/repositories/ecommerce_chat_repository.ts), retried and raced at will over a collection with a unique index
 (src/db/mongo.ts). Some e-commerce messages still carry a key of the older, ambiguous format.
 */
module IdempotentSend {
  import opened Machine
  import opened Redis

  /** Who sends, and the id the client chose: what the canonical key is built from. */
  datatype Identity =
    | Attendant(senderStore: string, clientId: string)
    | Customer(store: string, visitor: string, clientId: string)
    | StoreUser(store: string, user: string, conversation: string, clientId: string)

  /** An index key. The canonical ones are injective in the identity; the older ones are joined with colons. */
  datatype Key = Canonical(identity: Identity) | Joined(text: string)

  function LegacyKey(identity: Identity): Option<Key>
  {
    match identity
    case Attendant(_, _) => None
    case Customer(store, visitor, clientId) =>
      Some(Joined("website_customer:" + store + ":" + visitor + ":" + clientId))
    case StoreUser(store, user, _, clientId) => Some(Joined("store_user:" + store + ":" + user + ":" + clientId))
  }

  /** A request may leave its threads open, as empty strings; a stored message has them resolved. */
  datatype Payload = Payload(content: seq<string>, thread: string, clientThread: string)

  predicate Matches(stored: Payload, asked: Payload)
  {
    && stored.content == asked.content
    && (asked.thread == "" || asked.thread == stored.thread)
    && (asked.clientThread == "" || asked.clientThread == stored.clientThread)
  }

  /** What a thread id in a request is resolved to; only attendants' messages carry threads. */
  predicate Resolves(identity: Identity, stored: Payload, asked: Payload)
  {
    Matches(stored, asked) && (!identity.Attendant? ==> stored == asked)
  }

  /** The document whose status a send depends on. */
  datatype Conversation = Thread(id: string) | OfVisitor(store: string, visitor: string) | Numbered(id: string)

  function ConversationOf(identity: Identity, stored: Payload): Conversation
  {
    match identity
    case Attendant(_, _) => Thread(stored.thread)
    case Customer(store, visitor, _) => OfVisitor(store, visitor)
    case StoreUser(_, _, conversation, _) => Numbered(conversation)
  }

  datatype Message = Message(id: nat, identity: Identity, payload: Payload)

  datatype Phase =
    | Opening                         // a store user's send reads its conversation first
    | LookingCanonical
    | LookingLegacy
    | Ensuring                        // the others read, or create, theirs after the lookups
    | Inserting(stored: Payload)
    | Updating(message: Message)      // inserted, the conversation not yet updated
    | Rechecking                      // after a duplicate key error
    | Returned(message: Message)
    | Conflict
    | Failed

  datatype Worker = Worker(identity: Identity, payload: Payload, phase: Phase)

  /** `updates` counts, per message, the conversation updates that its sends made. */
  datatype State = State(
    transactions: bool,
    messages: map<Key, Message>,
    workers: map<nat, Worker>,
    nextId: nat,
    updates: map<nat, nat>,
    closed: set<Conversation>)

  datatype Event =
    | Call(w: nat, identity: Identity, payload: Payload)
    | ReadConversation(w: nat)
    | LookCanonical(w: nat)
    | LookLegacy(w: nat)
    | Ensure(w: nat, stored: Payload)
    | Insert(w: nat)
    | Update(w: nat)
    | Recheck(w: nat)
    | Close(conversation: Conversation)
    | Fail(w: nat)                    // any other error, of a lookup or before the insert

  /** `legacy` are the messages that older versions left behind. */
  function Init(transactions: bool, legacy: map<Key, Message>, nextId: nat): State
  {
    State(transactions, legacy, map[], nextId, map[], {})
  }

  // ---------- steps ----------

  function Become(s: State, w: nat, phase: Phase): State
    requires w in s.workers
  {
    s.(workers := s.workers[w := s.workers[w].(phase := phase)])
  }

  predicate Is(s: State, w: nat, phase: Phase) { w in s.workers && s.workers[w].phase == phase }

  /** What finding a message of the same identity leads to. */
  function Judge(found: Message, worker: Worker): Phase
  {
    if Matches(found.payload, worker.payload) then Returned(found) else Conflict
  }

  function Count(updates: map<nat, nat>, id: nat): nat { if id in updates then updates[id] else 0 }

  /** `status` of the conversation that the send inserts into, or whose update it is about to make. */
  predicate IsClosed(s: State, w: nat)
    requires w in s.workers && (s.workers[w].phase.Inserting? || s.workers[w].phase.Updating?)
  {
    var Worker(identity, _, phase) := s.workers[w];
    ConversationOf(identity, if phase.Inserting? then phase.stored else phase.message.payload) in s.closed
  }

  function Store(s: State, w: nat, message: Message): State
    requires w in s.workers
  {
    Become(s.(messages := s.messages[Canonical(message.identity) := message], nextId := s.nextId + 1), w,
           Updating(message))
  }

  function Updated(s: State, w: nat): State
    requires w in s.workers && s.workers[w].phase.Updating?
  {
    var message := s.workers[w].phase.message;
    Become(s.(updates := s.updates[message.id := Count(s.updates, message.id) + 1]), w, Returned(message))
  }

  function Step(s: State, e: Event): Option<State>
  {
    match e
    case Call(w, identity, payload) =>
      if w in s.workers then None
      else
        var phase := if identity.StoreUser? then Opening else LookingCanonical;
        Some(s.(workers := s.workers[w := Worker(identity, payload, phase)]))
    case ReadConversation(w) =>
      if !Is(s, w, Opening) then None
      else
        var Worker(identity, payload, _) := s.workers[w];
        Some(Become(s, w, if ConversationOf(identity, payload) in s.closed then Failed else LookingCanonical))
    case LookCanonical(w) =>
      if !Is(s, w, LookingCanonical) then None
      else
        var key := Canonical(s.workers[w].identity);
        Some(Become(s, w, if key in s.messages then Judge(s.messages[key], s.workers[w]) else LookingLegacy))
    case LookLegacy(w) =>
      if !Is(s, w, LookingLegacy) then None
      else
        (match LegacyKey(s.workers[w].identity)
         case None => Some(Become(s, w, Ensuring))
         case Some(key) =>
           Some(Become(s, w,
             if key in s.messages && s.messages[key].identity == s.workers[w].identity
             then Judge(s.messages[key], s.workers[w]) else Ensuring)))
    case Ensure(w, stored) =>
      if !Is(s, w, Ensuring) || !Resolves(s.workers[w].identity, stored, s.workers[w].payload) then None
      else
        var identity := s.workers[w].identity;
        Some(Become(s, w, if !identity.StoreUser? && ConversationOf(identity, stored) in s.closed then Failed
                          else Inserting(stored)))
    case Insert(w) =>
      if w !in s.workers || !s.workers[w].phase.Inserting? then None
      else
        var Worker(identity, _, phase) := s.workers[w];
        var taken := Canonical(identity) in s.messages;
        if s.transactions && IsClosed(s, w) && (identity.Attendant? || !taken) then Some(Become(s, w, Failed))
        else if taken then Some(Become(s, w, Rechecking))
        else
          var inserted := Store(s, w, Message(s.nextId, identity, phase.stored));
          Some(if s.transactions then Updated(inserted, w) else inserted)
    case Update(w) =>
      if w !in s.workers || !s.workers[w].phase.Updating? then None
      else Some(if IsClosed(s, w) then Become(s, w, Failed) else Updated(s, w))
    case Recheck(w) =>
      if !Is(s, w, Rechecking) then None
      else
        var key := Canonical(s.workers[w].identity);
        Some(Become(s, w, if key in s.messages then Judge(s.messages[key], s.workers[w]) else Failed))
    case Fail(w) =>
      if w !in s.workers || s.workers[w].phase.Returned? then None else Some(Become(s, w, Failed))
    case Close(conversation) => Some(s.(closed := s.closed + {conversation}))
  }

  // ---------- invariant ----------

  /** The message of an identity, if there is one. */
  function MessageOf(messages: map<Key, Message>, identity: Identity): Option<Message>
  {
    if Canonical(identity) in messages then Some(messages[Canonical(identity)])
    else
      match LegacyKey(identity)
      case None => None
      case Some(key) => if key in messages && messages[key].identity == identity then Some(messages[key]) else None
  }

  /** Every stored message is the one message of its identity. */
  ghost predicate MessagesOk(messages: map<Key, Message>, nextId: nat)
  {
    forall k :: k in messages ==> MessageOk(messages, nextId, k)
  }

  predicate MessageOk(messages: map<Key, Message>, nextId: nat, k: Key)
    requires k in messages
  {
    && messages[k].id < nextId && MessageOf(messages, messages[k].identity) == Some(messages[k])
    && (k.Canonical? ==> k.identity == messages[k].identity)
  }

  /** Past the legacy lookup, the identity has no legacy message. */
  predicate NoLegacy(s: State, identity: Identity)
  {
    LegacyKey(identity).Some? ==>
      (LegacyKey(identity).value in s.messages ==> s.messages[LegacyKey(identity).value].identity != identity)
  }

  ghost predicate WorkerOk(s: State, w: nat)
    requires w in s.workers
  {
    var Worker(identity, payload, phase) := s.workers[w];
    match phase
    case Ensuring => NoLegacy(s, identity)
    case Inserting(stored) => NoLegacy(s, identity) && Matches(stored, payload)
    case Rechecking => NoLegacy(s, identity)
    case Updating(message) =>
      MessageOf(s.messages, identity) == Some(message) && Matches(message.payload, payload) && Count(s.updates, message.id) == 0
    case Returned(message) => MessageOf(s.messages, identity) == Some(message) && Matches(message.payload, payload)
    case _ => true
  }

  /** Of each message at most one update has been made, or is still to come from one worker. */
  ghost predicate UpdatesOk(s: State)
  {
    && (forall id :: id in s.updates ==> s.updates[id] <= 1 && id < s.nextId)
    && (forall v, w :: v in s.workers && w in s.workers && SameUpdate(s.workers[v].phase, s.workers[w].phase) ==> v == w)
  }

  predicate SameUpdate(p: Phase, q: Phase)
  {
    p.Updating? && q.Updating? && p.message.id == q.message.id
  }

  ghost predicate Inv(s: State)
  {
    MessagesOk(s.messages, s.nextId) && UpdatesOk(s) && forall w :: w in s.workers ==> WorkerOk(s, w)
  }

  /** One worker moves, and nothing else changes. */
  lemma BecomeKeepsInv(s: State, w: nat, phase: Phase)
    requires Inv(s) && w in s.workers && !phase.Updating? && WorkerOk(Become(s, w, phase), w)
    ensures Inv(Become(s, w, phase))
  {
    hide MessagesOk;
    var t := Become(s, w, phase);
    forall v | v in t.workers && v != w ensures WorkerOk(t, v) {
      assert WorkerOk(s, v);
    }
  }

  lemma LookKeepsInv(s: State, e: Event)
    requires Inv(s) && Step(s, e).Some? && (e.LookCanonical? || e.LookLegacy? || e.Recheck?)
    ensures Inv(Step(s, e).value)
  {
    assert WorkerOk(s, e.w);
    var phase := Step(s, e).value.workers[e.w].phase;
    assert WorkerOk(Become(s, e.w, phase), e.w);
    BecomeKeepsInv(s, e.w, phase);
  }

  lemma EnsureKeepsInv(s: State, e: Event)
    requires Inv(s) && Step(s, e).Some? && (e.Ensure? || e.ReadConversation? || e.Fail?)
    ensures Inv(Step(s, e).value)
  {
    assert WorkerOk(s, e.w);
    hide MessagesOk, MessageOf, LegacyKey;
    BecomeKeepsInv(s, e.w, Step(s, e).value.workers[e.w].phase);
  }

  lemma CallKeepsInv(s: State, e: Event)
    requires Inv(s) && Step(s, e).Some? && e.Call?
    ensures Inv(Step(s, e).value)
  {
    var t := Step(s, e).value;
    forall v | v in t.workers ensures WorkerOk(t, v) {
      assert v != e.w ==> WorkerOk(s, v);
    }
  }

  lemma StoreKeepsMessages(s: State, w: nat, message: Message)
    requires MessagesOk(s.messages, s.nextId) && w in s.workers
    requires MessageOf(s.messages, message.identity) == None && message.id == s.nextId
    ensures var t := Store(s, w, message);
            MessagesOk(t.messages, t.nextId) && MessageOf(t.messages, message.identity) == Some(message)
    ensures forall i :: i != message.identity ==>
              MessageOf(Store(s, w, message).messages, i) == MessageOf(s.messages, i)
  {
    var t := Store(s, w, message);
    forall k | k in t.messages ensures MessageOk(t.messages, t.nextId, k) {
      assert k in s.messages ==> MessageOk(s.messages, s.nextId, k);
    }
  }

  /** Storing a message of an identity that has none. */
  lemma StoreKeepsInv(s: State, w: nat, message: Message)
    requires Inv(s) && w in s.workers && s.workers[w].identity == message.identity && message.id == s.nextId
    requires MessageOf(s.messages, message.identity) == None && Matches(message.payload, s.workers[w].payload)
    ensures Inv(Store(s, w, message))
  {
    var t := Store(s, w, message);
    StoreKeepsMessages(s, w, message);
    hide MessageOf, MessagesOk, LegacyKey;
    forall v | v in t.workers && v != w ensures WorkerOk(t, v) {
      StoreKeepsWorker(s, w, message, v);
    }
    forall v | v in s.workers && s.workers[v].phase.Updating? ensures s.workers[v].phase.message.id < s.nextId {
      UpdatingIsOld(s, v);
    }
  }

  lemma StoreKeepsWorker(s: State, w: nat, message: Message, v: nat)
    requires Inv(s) && w in s.workers && message.id == s.nextId && v in s.workers && v != w
    requires MessageOf(s.messages, message.identity) == None
    ensures WorkerOk(Store(s, w, message), v)
  {
    assert WorkerOk(s, v);
    StoreKeepsMessages(s, w, message);
    hide MessagesOk, MessageOf, UpdatesOk;
  }

  lemma UpdatingIsOld(s: State, v: nat)
    requires Inv(s) && v in s.workers && s.workers[v].phase.Updating?
    ensures s.workers[v].phase.message.id < s.nextId
  {
    assert WorkerOk(s, v);
    var identity := s.workers[v].identity;
    var k := if Canonical(identity) in s.messages then Canonical(identity) else LegacyKey(identity).value;
    assert MessageOk(s.messages, s.nextId, k);
  }

  lemma UpdatedKeepsInv(s: State, w: nat)
    requires Inv(s) && w in s.workers && s.workers[w].phase.Updating?
    ensures Inv(Updated(s, w))
  {
    var t := Updated(s, w);
    assert WorkerOk(s, w);
    UpdatingIsOld(s, w);
    hide MessagesOk, MessageOf, LegacyKey;
    forall v | v in t.workers ensures WorkerOk(t, v) {
      assert WorkerOk(s, v);
      assert v != w ==> !SameUpdate(s.workers[v].phase, s.workers[w].phase);
    }
  }

  lemma InsertKeepsInv(s: State, e: Event)
    requires Inv(s) && Step(s, e).Some? && e.Insert?
    ensures Inv(Step(s, e).value)
  {
    var w := e.w;
    var Worker(identity, payload, phase) := s.workers[w];
    assert WorkerOk(s, w);
    if Canonical(identity) in s.messages || (s.transactions && IsClosed(s, w)) {
      BecomeKeepsInv(s, w, Step(s, e).value.workers[w].phase);
    } else {
      assert MessageOf(s.messages, identity) == None;
      hide MessagesOk, MessageOf, UpdatesOk, WorkerOk, LegacyKey, IsClosed;
      var message := Message(s.nextId, identity, phase.stored);
      StoreKeepsInv(s, w, message);
      UpdatedKeepsInv(Store(s, w, message), w);
    }
  }

  lemma CloseKeepsInv(s: State, closed: set<Conversation>)
    requires Inv(s)
    ensures Inv(s.(closed := closed))
  {
    forall w | w in s.workers ensures WorkerOk(s.(closed := closed), w) {
      assert WorkerOk(s, w);
    }
  }

  lemma StepKeepsInv(s: State, e: Event)
    requires Inv(s) && Step(s, e).Some?
    ensures Inv(Step(s, e).value)
  {
    match e
    case Call(_, _, _) => CallKeepsInv(s, e);
    case Insert(_) => InsertKeepsInv(s, e);
    case Update(w) => if IsClosed(s, w) { BecomeKeepsInv(s, w, Failed); } else { UpdatedKeepsInv(s, w); }
    case Close(conversation) => CloseKeepsInv(s, s.closed + {conversation});
    case Ensure(_, _) => EnsureKeepsInv(s, e);
    case ReadConversation(_) => EnsureKeepsInv(s, e);
    case Fail(_) => EnsureKeepsInv(s, e);
    case _ => LookKeepsInv(s, e);
  }

  lemma RunKeepsInv(init: State, es: seq<Event>)
    requires Inv(init) && Run(Step, init, es).Some?
    ensures Inv(Run(Step, init, es).value)
  {
    hide Step, Inv;
    AtEnds(Step, init, es);
    forall s, e | Inv(s) && Step(s, e).Some? ensures Inv(Step(s, e).value) {
      StepKeepsInv(s, e);
    }
    Always(Step, Inv, init, es, 0, |es|);
  }

  // ---------- theorems ----------

  /** However sends race and retry, an identity has at most one message. */
  lemma OneMessagePerIdentity(transactions: bool, legacy: map<Key, Message>, nextId: nat, es: seq<Event>, k: Key, l: Key)
    requires MessagesOk(legacy, nextId) && Run(Step, Init(transactions, legacy, nextId), es).Some?
    requires var s := Run(Step, Init(transactions, legacy, nextId), es).value;
             k in s.messages && l in s.messages && s.messages[k].identity == s.messages[l].identity
    ensures var s := Run(Step, Init(transactions, legacy, nextId), es).value; s.messages[k] == s.messages[l]
  {
    RunKeepsInv(Init(transactions, legacy, nextId), es);
    var s := Run(Step, Init(transactions, legacy, nextId), es).value;
    assert MessageOk(s.messages, s.nextId, k) && MessageOk(s.messages, s.nextId, l);
  }

  /** All successful sends of an identity return the same message, and it has what each of them asked for. */
  lemma SuccessesAgree(transactions: bool, legacy: map<Key, Message>, nextId: nat, es: seq<Event>, v: nat, w: nat)
    requires MessagesOk(legacy, nextId) && Run(Step, Init(transactions, legacy, nextId), es).Some?
    requires var s := Run(Step, Init(transactions, legacy, nextId), es).value;
             && v in s.workers && w in s.workers && s.workers[v].identity == s.workers[w].identity
             && s.workers[v].phase.Returned? && s.workers[w].phase.Returned?
    ensures var s := Run(Step, Init(transactions, legacy, nextId), es).value;
            && s.workers[v].phase.message == s.workers[w].phase.message
            && Matches(s.workers[v].phase.message.payload, s.workers[v].payload)
            && Matches(s.workers[v].phase.message.payload, s.workers[w].payload)
  {
    RunKeepsInv(Init(transactions, legacy, nextId), es);
    var s := Run(Step, Init(transactions, legacy, nextId), es).value;
    assert WorkerOk(s, v) && WorkerOk(s, w);
  }

  /** In particular, two requests with different contents under one identity cannot both succeed. */
  lemma DifferentContentsConflict(transactions: bool, legacy: map<Key, Message>, nextId: nat, es: seq<Event>, v: nat, w: nat)
    requires MessagesOk(legacy, nextId) && Run(Step, Init(transactions, legacy, nextId), es).Some?
    requires var s := Run(Step, Init(transactions, legacy, nextId), es).value;
             && v in s.workers && w in s.workers && s.workers[v].identity == s.workers[w].identity
             && s.workers[v].payload.content != s.workers[w].payload.content
    ensures var s := Run(Step, Init(transactions, legacy, nextId), es).value;
            !s.workers[v].phase.Returned? || !s.workers[w].phase.Returned?
  {
    var s := Run(Step, Init(transactions, legacy, nextId), es).value;
    if s.workers[v].phase.Returned? && s.workers[w].phase.Returned? {
      SuccessesAgree(transactions, legacy, nextId, es, v, w);
      assert false;
    }
  }

  // ---------- what a send gets that nobody disturbs ----------

  /** The same contents, and the same threads where the request names any. */
  predicate AsAsked(stored: Payload, asked: Payload)
  {
    && stored.content == asked.content
    && asked.thread in {"", stored.thread} && asked.clientThread in {"", stored.clientThread}
  }

  /** Whether the conversation refuses the send before anything is looked up. */
  predicate ShutOut(s: State, identity: Identity)
  {
    identity.StoreUser? && Numbered(identity.conversation) in s.closed
  }

  ghost predicate Delivered(s: State, t: State, w: nat, identity: Identity, asked: Payload, stored: Payload)
  {
    var message := Message(s.nextId, identity, stored);
    && w in t.workers
    && if ShutOut(s, identity) then Is(t, w, Failed) && t.messages == s.messages
       else if exists k :: k in s.messages && s.messages[k].identity == identity then
         && t.messages == s.messages
         && forall k :: k in s.messages && s.messages[k].identity == identity ==>
              Is(t, w, if AsAsked(s.messages[k].payload, asked) then Returned(s.messages[k]) else Conflict)
       else if ConversationOf(identity, stored) in s.closed then
         Is(t, w, Failed) && t.messages == s.messages
       else
         && t.messages == s.messages[Canonical(identity) := message] && Is(t, w, Returned(message))
         && Count(t.updates, s.nextId) == Count(s.updates, s.nextId) + 1
  }

  /**
   In every reachable state, a send that nobody disturbs returns the message that its identity has, if it asks for that one,
   and conflicts if it asks for another; if there is none it stores one, counted once, with the threads it was resolved to.
   */
  lemma UndisturbedSend(init: State, es: seq<Event>, s: State, w: nat, identity: Identity, asked: Payload, stored: Payload)
    returns (fs: seq<Event>, t: State)
    requires Inv(init) && Run(Step, init, es) == Some(s) && w !in s.workers && Resolves(identity, stored, asked)
    ensures es <= fs && Run(Step, init, fs) == Some(t) && Delivered(s, t, w, identity, asked, stored)
  {
    RunKeepsInv(init, es);
    hide Run, Step, Inv, Resolves;
    fs, t := OpenAlone(init, es, s, w, identity, asked);
    if !ShutOut(s, identity) {
      KnownOrNot(s, identity);
      fs, t := LookAlone(init, fs, t, w, identity, asked);
      if MessageOf(s.messages, identity).None? {
        fs, t := StoreAlone(init, fs, t, w, identity, asked, stored);
      }
    }
  }

  lemma KnownOrNot(s: State, identity: Identity)
    requires Inv(s)
    ensures forall k :: k in s.messages && s.messages[k].identity == identity ==>
              MessageOf(s.messages, identity) == Some(s.messages[k])
    ensures MessageOf(s.messages, identity).Some? ==>
              exists k :: k in s.messages && s.messages[k].identity == identity
  {
    forall k | k in s.messages && s.messages[k].identity == identity
      ensures MessageOf(s.messages, identity) == Some(s.messages[k])
    {
      assert MessageOk(s.messages, s.nextId, k);
    }
    if Canonical(identity) in s.messages {
      assert MessageOk(s.messages, s.nextId, Canonical(identity));
    }
  }

  ghost predicate SameStore(s: State, t: State)
  {
    t.messages == s.messages && t.nextId == s.nextId && t.updates == s.updates && t.closed == s.closed &&
    t.transactions == s.transactions
  }

  lemma OpenAlone(init: State, es: seq<Event>, s: State, w: nat, identity: Identity, asked: Payload)
    returns (fs: seq<Event>, t: State)
    requires Run(Step, init, es) == Some(s) && w !in s.workers
    ensures es <= fs && Run(Step, init, fs) == Some(t) && SameStore(s, t) && w in t.workers
    ensures t.workers[w] == Worker(identity, asked, if ShutOut(s, identity) then Failed else LookingCanonical)
  {
    hide Run;
    fs, t := Extend(Step, init, es, Call(w, identity, asked));
    if identity.StoreUser? {
      fs, t := Extend(Step, init, fs, ReadConversation(w));
    }
  }

  lemma LookAlone(init: State, es: seq<Event>, s: State, w: nat, identity: Identity, asked: Payload)
    returns (fs: seq<Event>, t: State)
    requires Run(Step, init, es) == Some(s) && w in s.workers && s.workers[w] == Worker(identity, asked, LookingCanonical)
    ensures es <= fs && Run(Step, init, fs) == Some(t) && SameStore(s, t) && w in t.workers
    ensures t.workers[w] == Worker(identity, asked,
              match MessageOf(s.messages, identity)
              case Some(message) => if AsAsked(message.payload, asked) then Returned(message) else Conflict
              case None => Ensuring)
  {
    hide Run, LegacyKey;
    fs, t := Extend(Step, init, es, LookCanonical(w));
    if Is(t, w, LookingLegacy) {
      fs, t := Extend(Step, init, fs, LookLegacy(w));
    }
  }

  lemma StoreAlone(
    init: State, es: seq<Event>, s: State, w: nat, identity: Identity, asked: Payload, stored: Payload)
    returns (fs: seq<Event>, t: State)
    requires Run(Step, init, es) == Some(s) && w in s.workers && s.workers[w] == Worker(identity, asked, Ensuring)
    requires Resolves(identity, stored, asked) && Canonical(identity) !in s.messages && !ShutOut(s, identity)
    ensures es <= fs && Run(Step, init, fs) == Some(t) && w in t.workers
    ensures var message := Message(s.nextId, identity, stored);
            if ConversationOf(identity, stored) in s.closed then Is(t, w, Failed) && t.messages == s.messages
            else
              && t.messages == s.messages[Canonical(identity) := message] && Is(t, w, Returned(message))
              && Count(t.updates, s.nextId) == Count(s.updates, s.nextId) + 1
  {
    hide Run, LegacyKey;
    fs, t := Extend(Step, init, es, Ensure(w, stored));
    if t.workers[w].phase.Inserting? {
      fs, t := Extend(Step, init, fs, Insert(w));
      if !t.transactions {
        fs, t := Extend(Step, init, fs, Update(w));
      }
    }
  }

  /** Who loses the race for the index gets what the winner stored, if he asked for the same, and a conflict otherwise. */
  lemma LoserGetsTheWinnersMessage(init: State, es: seq<Event>, s: State, w: nat) returns (fs: seq<Event>, t: State)
    requires Run(Step, init, es) == Some(s) && w in s.workers && s.workers[w].phase.Inserting?
    requires Canonical(s.workers[w].identity) in s.messages && !(s.transactions && IsClosed(s, w))
    ensures fs == es + [Insert(w), Recheck(w)] && Run(Step, init, fs) == Some(t)
    ensures var winner := s.messages[Canonical(s.workers[w].identity)];
            Is(t, w, if AsAsked(winner.payload, s.workers[w].payload) then Returned(winner) else Conflict)
    ensures t.messages == s.messages && t.updates == s.updates
  {
    hide Run;
    fs, t := Extend(Step, init, es, Insert(w));
    fs, t := Extend(Step, init, fs, Recheck(w));
  }

  /** A message that an older version stored under its colon-separated key is found by whoever sends it again. */
  lemma OldMessagesAreReturned(transactions: bool, identity: Identity, payload: Payload, w: nat)
    returns (es: seq<Event>, t: State)
    requires !identity.Attendant?
    ensures var text :=
              if identity.Customer? then "website_customer:" + identity.store + ":" + identity.visitor + ":" + identity.clientId
              else "store_user:" + identity.store + ":" + identity.user + ":" + identity.clientId;
            var message := Message(0, identity, payload);
            && Run(Step, Init(transactions, map[Joined(text) := message], 1), es) == Some(t)
            && Is(t, w, Returned(message)) && t.messages == map[Joined(text) := message]
  {
    var text := if identity.Customer? then "website_customer:" + identity.store + ":" + identity.visitor + ":" + identity.clientId
                else "store_user:" + identity.store + ":" + identity.user + ":" + identity.clientId;
    var legacy := map[Joined(text) := Message(0, identity, payload)];
    var init := Init(transactions, legacy, 1);
    OldMessageOk(identity, payload, text);
    var s;
    es, s := Start(Step, init);
    hide Run, Step, MessagesOk;
    es, t := UndisturbedSend(init, es, s, w, identity, payload, payload);
    assert Joined(text) in s.messages;
  }

  lemma OldMessageOk(identity: Identity, payload: Payload, text: string)
    requires LegacyKey(identity) == Some(Joined(text))
    ensures MessagesOk(map[Joined(text) := Message(0, identity, payload)], 1)
  {
    hide LegacyKey;
  }

  ghost predicate AllCounted(s: State, first: nat)
  {
    && (forall k :: k in s.messages && s.messages[k].id >= first ==> Count(s.updates, s.messages[k].id) == 1)
    && (forall w :: w in s.workers ==> !s.workers[w].phase.Updating?)
  }

  /**
   A message is counted by the conversation at most once; with transactions every message sent is counted exactly
   once.
   */
  lemma CountedOnce(transactions: bool, legacy: map<Key, Message>, nextId: nat, es: seq<Event>, k: Key)
    requires MessagesOk(legacy, nextId) && Run(Step, Init(transactions, legacy, nextId), es).Some?
    requires k in Run(Step, Init(transactions, legacy, nextId), es).value.messages
    ensures var s := Run(Step, Init(transactions, legacy, nextId), es).value;
            && Count(s.updates, s.messages[k].id) <= 1
            && (transactions && s.messages[k].id >= nextId ==> Count(s.updates, s.messages[k].id) == 1)
  {
    var init := Init(transactions, legacy, nextId);
    RunKeepsInv(init, es);
    if transactions {
      var counted := (s: State) => s.transactions && Inv(s) && AllCounted(s, nextId);
      AtEnds(Step, init, es);
      forall id | id in legacy ensures legacy[id].id < nextId {
        assert MessageOk(legacy, nextId, id);
      }
      hide Step, Inv;
      forall s, e | counted(s) && Step(s, e).Some? ensures counted(Step(s, e).value) {
        StepKeepsInv(s, e);
        StepCounts(s, e, nextId);
      }
      Always(Step, counted, init, es, 0, |es|);
    }
  }

  lemma StepCounts(s: State, e: Event, first: nat)
    requires Inv(s) && s.transactions && AllCounted(s, first) && Step(s, e).Some?
    ensures Step(s, e).value.transactions && AllCounted(Step(s, e).value, first)
  {
    forall k | k in s.messages ensures s.messages[k].id < s.nextId {
      assert MessageOk(s.messages, s.nextId, k);
    }
    hide MessagesOk, WorkerOk, LegacyKey, Judge;
  }

  // ---------- counted or not, without transactions ----------

  /** The insert that stores a new message, its conversation still to be updated. */
  predicate Stores(s: State, e: Event)
  {
    && e.Insert? && !s.transactions && e.w in s.workers && s.workers[e.w].phase.Inserting?
    && Canonical(s.workers[e.w].identity) !in s.messages
  }

  function StoredBy(s: State, e: Event): Message
    requires Stores(s, e)
  {
    Message(s.nextId, s.workers[e.w].identity, s.workers[e.w].phase.stored)
  }

  /** Nobody will count the message `id` any more. */
  ghost predicate Settled(s: State, id: nat, count: nat)
  {
    && id < s.nextId && Count(s.updates, id) == count
    && forall v :: v in s.workers && s.workers[v].phase.Updating? ==> s.workers[v].phase.message.id != id
  }

  lemma SettledStays(s: State, e: Event, id: nat, count: nat)
    requires Settled(s, id, count) && Step(s, e).Some?
    ensures Settled(Step(s, e).value, id, count)
  {
    hide LegacyKey, Matches, IsClosed;
    match e
    case Insert(w) =>
      var t := Step(s, e).value;
      assert forall v :: v in s.workers && v != w ==> t.workers[v] == s.workers[v];
      assert t.updates == s.updates || t.updates == s.updates[s.nextId := Count(s.updates, s.nextId) + 1];
    case Update(w) => assert s.workers[w].phase.message.id != id;
    case _ => assert Step(s, e).value.updates == s.updates;
  }

  lemma StillUpdating(s: State, e: Event, w: nat, message: Message)
    requires Is(s, w, Updating(message)) && Step(s, e).Some? && e != Update(w) && e != Fail(w)
    ensures Is(Step(s, e).value, w, Updating(message))
  {
    hide LegacyKey, Judge, Matches;
  }

  /** How the send ends: by its update, or by an error before it. */
  lemma SendEnds(s: State, e: Event, w: nat, message: Message)
    requires Inv(s) && Is(s, w, Updating(message)) && Step(s, e).Some? && e in {Update(w), Fail(w)}
    ensures var t := Step(s, e).value;
            if e == Update(w) && ConversationOf(message.identity, message.payload) !in s.closed
            then Settled(t, message.id, 1) && Is(t, w, Returned(message))
            else Settled(t, message.id, 0) && Is(t, w, Failed)
  {
    assert WorkerOk(s, w);
    UpdatingIsOld(s, w);
    OwnMessage(s, w);
    hide MessagesOk, MessageOf, LegacyKey;
    forall v | v in s.workers && v != w && s.workers[v].phase.Updating? ensures s.workers[v].phase.message.id != message.id {
      assert !SameUpdate(s.workers[v].phase, s.workers[w].phase);
    }
  }

  lemma OwnMessage(s: State, w: nat)
    requires Inv(s) && w in s.workers && s.workers[w].phase.Updating?
    ensures s.workers[w].phase.message.identity == s.workers[w].identity
  {
    assert WorkerOk(s, w);
    var identity := s.workers[w].identity;
    if Canonical(identity) in s.messages {
      assert MessageOk(s.messages, s.nextId, Canonical(identity));
    }
  }

  lemma {:induction false} EndedStays(init: State, es: seq<Event>, n: nat, m: nat, w: nat, phase: Phase, id: nat, count: nat)
    requires Run(Step, init, es).Some? && n <= m <= |es|
    requires Settled(At(Step, init, es, n), id, count)
    requires (phase == Failed || phase.Returned?) && Is(At(Step, init, es, n), w, phase)
    ensures Settled(At(Step, init, es, m), id, count) && Is(At(Step, init, es, m), w, phase)
    decreases m
  {
    hide Run, At, Step, Settled;
    if n < m {
      EndedStays(init, es, n, m - 1, w, phase, id, count);
      StepAt(Step, init, es, m - 1);
      SettledStays(At(Step, init, es, m - 1), es[m - 1], id, count);
      OverStays(At(Step, init, es, m - 1), es[m - 1], w, phase);
    }
  }

  lemma OverStays(s: State, e: Event, w: nat, phase: Phase)
    requires (phase == Failed || phase.Returned?) && Is(s, w, phase) && Step(s, e).Some?
    ensures Is(Step(s, e).value, w, phase)
  {
    hide LegacyKey, Judge, Matches;
  }

  /** The event that ends the send, somewhere between `j` and the state `n` in which it is over. */
  lemma FindEnd(init: State, es: seq<Event>, j: nat, n: nat, w: nat, message: Message) returns (k: nat)
    requires Run(Step, init, es).Some? && j <= n <= |es|
    requires Is(At(Step, init, es, j), w, Updating(message)) && !Is(At(Step, init, es, n), w, Updating(message))
    ensures j <= k < n && es[k] in {Update(w), Fail(w)} && Is(At(Step, init, es, k), w, Updating(message))
    ensures Update(w) !in es[j..k] && Fail(w) !in es[j..k]
    decreases n - j
  {
    hide Run, At, Step;
    if es[j] in {Update(w), Fail(w)} {
      k := j;
    } else {
      StepAt(Step, init, es, j);
      StillUpdating(At(Step, init, es, j), es[j], w, message);
      k := FindEnd(init, es, j + 1, n, w, message);
      assert es[j..k] == [es[j]] + es[j + 1..k];
    }
  }

  /**
   Without transactions, once the send that stored a message is over, exactly one of its events `k` has ended it, and
   these are the same: the message is counted once; that event was the update and found the conversation open; the send
   itself succeeded. Otherwise the message is never counted.
   */
  lemma CountedIffUpdatedWhileOpen(legacy: map<Key, Message>, nextId: nat, es: seq<Event>, i: nat, n: nat)
    returns (k: nat)
    requires MessagesOk(legacy, nextId) && Run(Step, Init(false, legacy, nextId), es).Some? && i < n <= |es|
    requires Stores(At(Step, Init(false, legacy, nextId), es, i), es[i])
    requires var message := StoredBy(At(Step, Init(false, legacy, nextId), es, i), es[i]);
             !Is(At(Step, Init(false, legacy, nextId), es, n), es[i].w, Updating(message))
    ensures i < k < n && es[k] in {Update(es[i].w), Fail(es[i].w)}
    ensures Update(es[i].w) !in es[i + 1..k] && Fail(es[i].w) !in es[i + 1..k]
    ensures var message := StoredBy(At(Step, Init(false, legacy, nextId), es, i), es[i]);
            var (s, t) := (At(Step, Init(false, legacy, nextId), es, k), At(Step, Init(false, legacy, nextId), es, n));
            var open := ConversationOf(message.identity, message.payload) !in s.closed;
            && (Count(t.updates, message.id) == 1 <==> es[k] == Update(es[i].w) && open)
            && (Count(t.updates, message.id) == 1 <==> Is(t, es[i].w, Returned(message)))
            && Count(t.updates, message.id) <= 1
  {
    var init, w := Init(false, legacy, nextId), es[i].w;
    StoringStarts(init, es, i);
    hide Run, At, Step, Stores, ConversationOf, Count;
    var message := StoredBy(At(Step, init, es, i), es[i]);
    k := FindEnd(init, es, i + 1, n, w, message);
    AfterEnd(init, es, k, n, w, message);
  }

  lemma AfterEnd(init: State, es: seq<Event>, k: nat, n: nat, w: nat, message: Message)
    requires Inv(init) && Run(Step, init, es).Some? && k < n <= |es|
    requires Is(At(Step, init, es, k), w, Updating(message)) && es[k] in {Update(w), Fail(w)}
    ensures var (s, t) := (At(Step, init, es, k), At(Step, init, es, n));
            var open := ConversationOf(message.identity, message.payload) !in s.closed;
            && (Count(t.updates, message.id) == 1 <==> es[k] == Update(w) && open)
            && (Count(t.updates, message.id) == 1 <==> Is(t, w, Returned(message)))
            && Count(t.updates, message.id) <= 1
  {
    hide Run, At, Step, Settled, ConversationOf, Inv;
    InvAt(init, es, k);
    StepAt(Step, init, es, k);
    SendEnds(At(Step, init, es, k), es[k], w, message);
    SettledCount(At(Step, init, es, n), message.id);
    if es[k] == Update(w) && ConversationOf(message.identity, message.payload) !in At(Step, init, es, k).closed {
      EndedStays(init, es, k + 1, n, w, Returned(message), message.id, 1);
    } else {
      EndedStays(init, es, k + 1, n, w, Failed, message.id, 0);
    }
  }

  lemma SettledCount(s: State, id: nat)
    ensures forall count: nat :: Settled(s, id, count) ==> Count(s.updates, id) == count
  {
  }

  lemma StoringStarts(init: State, es: seq<Event>, i: nat)
    requires Run(Step, init, es).Some? && i < |es| && Stores(At(Step, init, es, i), es[i])
    ensures Is(At(Step, init, es, i + 1), es[i].w, Updating(StoredBy(At(Step, init, es, i), es[i])))
  {
    hide Run, At, Step;
    StepAt(Step, init, es, i);
    StoringStep(At(Step, init, es, i), es[i]);
  }

  lemma StoringStep(s: State, e: Event)
    requires Step(s, e).Some? && Stores(s, e)
    ensures Is(Step(s, e).value, e.w, Updating(StoredBy(s, e)))
  {
    hide IsClosed, ConversationOf;
  }

  lemma InvAt(init: State, es: seq<Event>, n: nat)
    requires Inv(init) && Run(Step, init, es).Some? && n <= |es|
    ensures Inv(At(Step, init, es, n))
  {
    Prefix(Step, init, es, n);
    RunKeepsInv(init, es[..n]);
  }

  /** So a send whose conversation stays open and that meets no error is counted, once. */
  lemma OpenSendIsCounted(legacy: map<Key, Message>, nextId: nat, es: seq<Event>, i: nat, n: nat)
    requires MessagesOk(legacy, nextId) && Run(Step, Init(false, legacy, nextId), es).Some? && i < n <= |es|
    requires Stores(At(Step, Init(false, legacy, nextId), es, i), es[i])
    requires var message := StoredBy(At(Step, Init(false, legacy, nextId), es, i), es[i]);
             var t := At(Step, Init(false, legacy, nextId), es, n);
             && !Is(t, es[i].w, Updating(message)) && Fail(es[i].w) !in es[i + 1..n]
             && ConversationOf(message.identity, message.payload) !in t.closed
    ensures var message := StoredBy(At(Step, Init(false, legacy, nextId), es, i), es[i]);
            Count(At(Step, Init(false, legacy, nextId), es, n).updates, message.id) == 1
  {
    hide Run, At, Step, Stores;
    var k := CountedIffUpdatedWhileOpen(legacy, nextId, es, i, n);
    ClosedGrows(Init(false, legacy, nextId), es, k, n);
    assert es[i + 1..n][k - i - 1] == es[k];
  }

  lemma {:induction false} ClosedGrows(init: State, es: seq<Event>, n: nat, m: nat)
    requires Run(Step, init, es).Some? && n <= m <= |es|
    ensures At(Step, init, es, n).closed <= At(Step, init, es, m).closed
    decreases m
  {
    hide Run, At, Step;
    if n < m {
      ClosedGrows(init, es, n, m - 1);
      StepAt(Step, init, es, m - 1);
      OneStepCloses(At(Step, init, es, m - 1), es[m - 1]);
    }
  }

  lemma OneStepCloses(s: State, e: Event)
    requires Step(s, e).Some?
    ensures s.closed <= Step(s, e).value.closed
  {
  }

  // ---------- retries after a close ----------

  /** A store user's send to a closed conversation: about to be refused, or refused. */
  ghost predicate Shut(s: State, w: nat, conversation: string)
  {
    && Numbered(conversation) in s.closed && w in s.workers && s.workers[w].phase in {Opening, Failed}
    && s.workers[w].identity.StoreUser? && s.workers[w].identity.conversation == conversation
  }

  lemma ShutStays(s: State, e: Event, w: nat, conversation: string)
    requires Shut(s, w, conversation) && Step(s, e).Some?
    ensures Shut(Step(s, e).value, w, conversation)
  {
    hide LegacyKey, Judge, Matches;
  }

  lemma ShutStarts(s: State, e: Event)
    requires Step(s, e).Some? && e.Call? && e.identity.StoreUser? && Numbered(e.identity.conversation) in s.closed
    ensures Shut(Step(s, e).value, e.w, e.identity.conversation)
  {
  }

  /** A store user reads the conversation first: once it is closed, every later call is refused, stored message or not. */
  lemma {:induction false} ClosedStoreSendsAreRefused(init: State, es: seq<Event>, i: nat, n: nat)
    requires Run(Step, init, es).Some? && i < n <= |es|
    requires es[i].Call? && es[i].identity.StoreUser?
    requires Numbered(es[i].identity.conversation) in At(Step, init, es, i).closed
    ensures Shut(At(Step, init, es, n), es[i].w, es[i].identity.conversation)
    decreases n
  {
    hide Run, At, Step;
    StepAt(Step, init, es, n - 1);
    if i + 1 == n {
      ShutStarts(At(Step, init, es, i), es[i]);
    } else {
      ClosedStoreSendsAreRefused(init, es, i, n - 1);
      ShutStays(At(Step, init, es, n - 1), es[n - 1], es[i].w, es[i].identity.conversation);
    }
  }

  /** One sender in the given phase, whether its message is stored, and whether its conversation is closed. */
  function Alone(v: nat, identity: Identity, asked: Payload, phase: Phase, stored: bool, shut: bool): State
  {
    State(false, if stored then map[Canonical(identity) := Message(0, identity, asked)] else map[],
          map[v := Worker(identity, asked, phase)], if stored then 1 else 0, map[],
          if shut then {ConversationOf(identity, asked)} else {})
  }

  lemma BecomeAlone(v: nat, identity: Identity, asked: Payload, p: Phase, q: Phase, stored: bool, shut: bool)
    ensures Become(Alone(v, identity, asked, p, stored, shut), v, q) == Alone(v, identity, asked, q, stored, shut)
  {
    var before := Worker(identity, asked, p);
    assert map[v := before][v := before.(phase := q)] == map[v := before.(phase := q)];
  }

  lemma LookupsFindNothing(v: nat, identity: Identity, asked: Payload)
    ensures Step(Init(false, map[], 0), Call(v, identity, asked))
         == Some(Alone(v, identity, asked, if identity.StoreUser? then Opening else LookingCanonical, false, false))
    ensures Step(Alone(v, identity, asked, Opening, false, false), ReadConversation(v))
         == Some(Alone(v, identity, asked, LookingCanonical, false, false))
    ensures Step(Alone(v, identity, asked, LookingCanonical, false, false), LookCanonical(v))
         == Some(Alone(v, identity, asked, LookingLegacy, false, false))
    ensures Step(Alone(v, identity, asked, LookingLegacy, false, false), LookLegacy(v))
         == Some(Alone(v, identity, asked, Ensuring, false, false))
  {
    BecomeAlone(v, identity, asked, Opening, LookingCanonical, false, false);
    BecomeAlone(v, identity, asked, LookingCanonical, LookingLegacy, false, false);
    BecomeAlone(v, identity, asked, LookingLegacy, Ensuring, false, false);
    hide LegacyKey, ConversationOf;
  }

  lemma InsertThenClose(v: nat, identity: Identity, asked: Payload)
    ensures Step(Alone(v, identity, asked, Ensuring, false, false), Ensure(v, asked))
         == Some(Alone(v, identity, asked, Inserting(asked), false, false))
    ensures var updating := Updating(Message(0, identity, asked));
            && Step(Alone(v, identity, asked, Inserting(asked), false, false), Insert(v))
               == Some(Alone(v, identity, asked, updating, true, false))
            && Step(Alone(v, identity, asked, updating, true, false), Close(ConversationOf(identity, asked)))
               == Some(Alone(v, identity, asked, updating, true, true))
            && Step(Alone(v, identity, asked, updating, true, true), Update(v))
               == Some(Alone(v, identity, asked, Failed, true, true))
  {
    var message := Message(0, identity, asked);
    hide ConversationOf, LegacyKey;
    BecomeAlone(v, identity, asked, Ensuring, Inserting(asked), false, false);
    BecomeAlone(v, identity, asked, Updating(message), Failed, true, true);
    var inserting := Alone(v, identity, asked, Inserting(asked), false, false);
    assert Store(inserting, v, message).workers == Alone(v, identity, asked, Updating(message), true, false).workers;
    assert Store(inserting, v, message) == Alone(v, identity, asked, Updating(message), true, false);
    assert {} + {ConversationOf(identity, asked)} == {ConversationOf(identity, asked)};
  }

  /** A send whose conversation closes between its insert and its update: refused, and stored. */
  lemma SendIsRefused(v: nat, identity: Identity, asked: Payload) returns (es: seq<Event>, s: State)
    ensures Run(Step, Init(false, map[], 0), es) == Some(s) && s == Alone(v, identity, asked, Failed, true, true)
  {
    var init := Init(false, map[], 0);
    LookupsFindNothing(v, identity, asked);
    InsertThenClose(v, identity, asked);
    hide Run, Step, Alone, ConversationOf;
    es, s := Start(Step, init);
    es, s := Extend(Step, init, es, Call(v, identity, asked));
    if identity.StoreUser? {
      es, s := Extend(Step, init, es, ReadConversation(v));
    }
    es, s := Extend(Step, init, es, LookCanonical(v));
    es, s := Extend(Step, init, es, LookLegacy(v));
    es, s := Extend(Step, init, es, Ensure(v, asked));
    es, s := Extend(Step, init, es, Insert(v));
    es, s := Extend(Step, init, es, Close(ConversationOf(identity, asked)));
    es, s := Extend(Step, init, es, Event.Update(v));
  }

  /**
   Without transactions a send that the caller saw refused because the conversation closed is stored all the same. What
   a retry gets depends on who sends: a customer or an attendant gets the message back, which no conversation ever
   counted; a store user is refused again.
   */
  lemma RetryAfterRefusal(v: nat, w: nat, identity: Identity, content: seq<string>) returns (es: seq<Event>)
    requires v != w
    ensures Run(Step, Init(false, map[], 0), es).Some?
    ensures var s := Run(Step, Init(false, map[], 0), es).value;
            && Is(s, v, Failed) && Canonical(identity) in s.messages && s.messages[Canonical(identity)].id == 0
            && Count(s.updates, 0) == 0
            && Is(s, w, if identity.StoreUser? then Failed else Returned(s.messages[Canonical(identity)]))
  {
    var asked := Payload(content, "", "");
    var init := Init(false, map[], 0);
    var s;
    hide Run, LegacyKey;
    es, s := SendIsRefused(v, identity, asked);
    es, s := Extend(Step, init, es, Call(w, identity, asked));
    if identity.StoreUser? {
      es, s := Extend(Step, init, es, ReadConversation(w));
    } else {
      es, s := Extend(Step, init, es, LookCanonical(w));
    }
  }
}
