/**
 Who a chat message is pushed to (src/socket/realtime_gateway.ts) and who may read its thread
 (src/repositories/chat_repository.ts), for users that joined their rooms at bootstrap
 (src/socket/handlers/store.ts).
 */
module ChatVisibility {
  import opened Encoding
  import opened Redis

  /** A store id or a user id, as bytes; ids have no surrounding blanks. */
  type Id = seq<Byte>

  /** One side of a thread, as the fields happen to be stored. */
  datatype Side = Side(store: Id, userId: Option<Id>, userName: Option<string>, assignedAt: Option<int>)

  datatype Thread = Thread(participants: seq<Id>, origin: Side, target: Side)

  datatype Message = Message(senderStore: Id, recipientStore: Id, senderUser: Id)

  datatype Role = Master | Seller

  datatype User = User(store: Id, id: Id, role: Role)

  datatype Responsible = Responsible(store: Id, userId: Id)

  // ---------- pull ----------

  predicate Truthy<T(==)>(field: Option<seq<T>>) { field.Some? && field.value != [] }

  /** `get_thread_side`: the origin is looked at first. */
  function SideOf(t: Thread, store: Id): Option<Side>
  {
    if t.origin.store == store then Some(t.origin) else if t.target.store == store then Some(t.target) else None
  }

  /** `is_thread_visible_to_user` */
  predicate Visible(t: Thread, user: User, singleAttendant: bool)
  {
    && user.store in t.participants
    && (user.role == Master || !singleAttendant ||
        (var side := SideOf(t, user.store);
         side.Some? && (!Truthy(side.value.userId) || side.value.userId == Some(user.id))))
  }

  /** The same with the settings: `disabled` are the stores whose single-attendant mode is off. */
  predicate MayRead(t: Thread, user: User, disabled: set<Id>)
  {
    Visible(t, user, user.store !in disabled)
  }

  /** The query's test of a responsible: the user, the empty string, or null, which also matches a missing field. */
  predicate OneOf(field: Option<Id>, user: Id)
  {
    field.None? || field.value == user || field.value == []
  }

  /** The filter of `list_visible_thread_ids` for a seller in single-attendant mode. */
  predicate Selected(t: Thread, user: User)
  {
    || (t.origin.store == user.store && OneOf(t.origin.userId, user.id))
    || (t.target.store == user.store && OneOf(t.target.userId, user.id))
  }

  // ---------- push ----------

  /** `get_thread_responsibles` */
  function Responsibles(t: Thread): seq<Responsible>
  {
    ResponsibleOf(t.origin) + ResponsibleOf(t.target)
  }

  function ResponsibleOf(side: Side): seq<Responsible>
  {
    if Truthy(side.userId) && Truthy(side.userName) && side.assignedAt.Some?
    then [Responsible(side.store, side.userId.value)] else []
  }

  /** `filter_attendance_responsibles` */
  function Filtered(responsibles: seq<Responsible>, disabled: set<Id>): seq<Responsible>
  {
    if responsibles == [] then []
    else
      (if responsibles[0].store in disabled then [] else [responsibles[0]]) + Filtered(responsibles[1..], disabled)
  }

  const MASTER: Id := [109, 97, 115, 116, 101, 114]
  const SELLER: Id := [115, 101, 108, 108, 101, 114]

  function RoleName(role: Role): Id { if role == Master then MASTER else SELLER }

  function ChatUserRoom(store: Id, user: Id): string { BuildRoom("chat_user", [store, user]) }

  function AttendantRoom(store: Id, role: Role): string { BuildRoom("store_chat_attendant", [store, RoleName(role)]) }

  /** `Array.find` on the store id */
  function Find(responsibles: seq<Responsible>, store: Id): Option<Responsible>
  {
    if responsibles == [] then None
    else if responsibles[0].store == store then Some(responsibles[0])
    else Find(responsibles[1..], store)
  }

  /** `add_chat_visibility_rooms` */
  function VisibilityRooms(store: Id, responsibles: seq<Responsible>): set<string>
  {
    {AttendantRoom(store, Master)} +
    (match Find(responsibles, store)
     case Some(responsible) => {ChatUserRoom(store, responsible.userId)}
     case None => {AttendantRoom(store, Seller)})
  }

  /** `publish_chat_message` */
  function TargetRooms(m: Message, responsibles: seq<Responsible>): set<string>
  {
    {ChatUserRoom(m.senderStore, m.senderUser)} +
    VisibilityRooms(m.senderStore, responsibles) + VisibilityRooms(m.recipientStore, responsibles)
  }

  /** The rooms a store user with chat permission joins at bootstrap; `others` are the rooms of other kinds. */
  function Joined(user: User, others: set<string>): set<string>
  {
    {ChatUserRoom(user.store, user.id), AttendantRoom(user.store, user.role)} + others
  }

  predicate Reached(rooms: set<string>, user: User, others: set<string>)
  {
    exists room :: room in rooms && room in Joined(user, others)
  }

  predicate IsSender(m: Message, user: User) { m.senderStore == user.store && m.senderUser == user.id }

  predicate OtherKinds(others: set<string>)
  {
    forall room :: room in others ==>
      Fields(room, "") != [] && Fields(room, "")[0] != "chat_user" && Fields(room, "")[0] != "store_chat_attendant"
  }

  // ---------- push agrees with pull ----------

  /** A side whose responsible is either wholly recorded or not at all. */
  predicate Complete(side: Side)
  {
    Truthy(side.userId) ==> Truthy(side.userName) && side.assignedAt.Some?
  }

  ghost predicate WellFormed(t: Thread, m: Message)
  {
    && t.origin.store != t.target.store
    && (forall id :: id in t.participants <==> id == t.origin.store || id == t.target.store)
    && Complete(t.origin) && Complete(t.target)
    && {m.senderStore, m.recipientStore} == {t.origin.store, t.target.store}
  }

  lemma ChatUserRooms(a: Id, b: Id, c: Id, d: Id)
    ensures ChatUserRoom(a, b) == ChatUserRoom(c, d) <==> a == c && b == d
  {
    if ChatUserRoom(a, b) == ChatUserRoom(c, d) {
      RoomsAreDistinct("chat_user", [a, b], "chat_user", [c, d]);
      assert [a, b][0] == [c, d][0] && [a, b][1] == [c, d][1];
    }
  }

  lemma AttendantRooms(a: Id, r: Role, b: Id, q: Role)
    ensures AttendantRoom(a, r) == AttendantRoom(b, q) <==> a == b && r == q
  {
    if AttendantRoom(a, r) == AttendantRoom(b, q) {
      RoomsAreDistinct("store_chat_attendant", [a, RoleName(r)], "store_chat_attendant", [b, RoleName(q)]);
      assert [a, RoleName(r)][0] == [b, RoleName(q)][0] && [a, RoleName(r)][1] == [b, RoleName(q)][1];
      assert MASTER[0] != SELLER[0];
    }
  }

  lemma KindsDiffer(a: Id, b: Id, c: Id, r: Role)
    ensures ChatUserRoom(a, b) != AttendantRoom(c, r)
  {
    assert "chat_user"[0] != "store_chat_attendant"[0];
    if ChatUserRoom(a, b) == AttendantRoom(c, r) {
      RoomsAreDistinct("chat_user", [a, b], "store_chat_attendant", [c, RoleName(r)]);
      assert false;
    }
  }

  lemma ChatKinds(room: string, store: Id, user: Id, role: Role)
    requires room == ChatUserRoom(store, user) || room == AttendantRoom(store, role)
    ensures Fields(room, "") != [] && Fields(room, "")[0] in {"chat_user", "store_chat_attendant"}
  {
    RoomFields("chat_user", [store, user]);
    RoomFields("store_chat_attendant", [store, RoleName(role)]);
  }

  lemma AttendantJoined(store: Id, role: Role, user: User, others: set<string>)
    requires OtherKinds(others)
    ensures AttendantRoom(store, role) in Joined(user, others) <==> store == user.store && role == user.role
  {
    AttendantRooms(store, role, user.store, user.role);
    KindsDiffer(user.store, user.id, store, role);
    ChatKinds(AttendantRoom(store, role), store, [], role);
    hide ChatUserRoom, AttendantRoom, Fields;
  }

  lemma ChatUserJoined(store: Id, id: Id, user: User, others: set<string>)
    requires OtherKinds(others)
    ensures ChatUserRoom(store, id) in Joined(user, others) <==> store == user.store && id == user.id
  {
    ChatUserRooms(store, id, user.store, user.id);
    KindsDiffer(store, id, user.store, user.role);
    ChatKinds(ChatUserRoom(store, id), store, id, Master);
    hide ChatUserRoom, AttendantRoom, Fields;
  }

  /** Which of the rooms of one store a user is in. */
  lemma StoreRooms(store: Id, responsibles: seq<Responsible>, user: User, others: set<string>)
    requires OtherKinds(others)
    ensures Reached(VisibilityRooms(store, responsibles), user, others) <==>
              store == user.store &&
              (user.role == Master ||
               (match Find(responsibles, store) case Some(r) => r.userId == user.id case None => true))
  {
    AttendantJoined(store, Master, user, others);
    AttendantJoined(store, Seller, user, others);
    hide ChatUserRoom, AttendantRoom, Joined;
    match Find(responsibles, store)
    case Some(r) =>
      ChatUserJoined(store, r.userId, user, others);
      assert VisibilityRooms(store, responsibles) == {AttendantRoom(store, Master), ChatUserRoom(store, r.userId)};
    case None =>
      assert VisibilityRooms(store, responsibles) == {AttendantRoom(store, Master), AttendantRoom(store, Seller)};
  }

  /** The responsible that a push finds for a store is the one its side names, if the mode is enabled there. */
  lemma FoundResponsible(t: Thread, disabled: set<Id>, store: Id)
    requires t.origin.store != t.target.store && Complete(t.origin) && Complete(t.target)
    requires store in {t.origin.store, t.target.store}
    ensures var side := SideOf(t, store).value;
            Find(Filtered(Responsibles(t), disabled), store) ==
              if store !in disabled && Truthy(side.userId) then Some(Responsible(store, side.userId.value)) else None
  {
    var (a, b) := (ResponsibleOf(t.origin), ResponsibleOf(t.target));
    FilteredSides(a, b, disabled);
    if a == [] {
      assert a + b == b;
    }
  }

  lemma FilteredSides(a: seq<Responsible>, b: seq<Responsible>, disabled: set<Id>)
    requires |a| <= 1 && |b| <= 1
    ensures Filtered(a + b, disabled) == Filtered(a, disabled) + Filtered(b, disabled)
  {
    if a == [] {
      assert a + b == b;
    } else {
      assert (a + b)[1..] == b && a[1..] == [];
    }
  }

  /**
   A push reaches a user, of a participant store or not, exactly when the thread is visible to that user, or the user is
   the sender.
   */
  lemma PushAgreesWithPull(t: Thread, m: Message, user: User, disabled: set<Id>, others: set<string>)
    requires WellFormed(t, m) && OtherKinds(others)
    ensures Reached(TargetRooms(m, Filtered(Responsibles(t), disabled)), user, others) <==>
              MayRead(t, user, disabled) || IsSender(m, user)
  {
    var responsibles := Filtered(Responsibles(t), disabled);
    assert user.store in {m.senderStore, m.recipientStore} <==> user.store in t.participants;
    StoreRooms(m.senderStore, responsibles, user, others);
    StoreRooms(m.recipientStore, responsibles, user, others);
    ChatUserJoined(m.senderStore, m.senderUser, user, others);
    if user.store in t.participants {
      FoundResponsible(t, disabled, user.store);
    }
    hide VisibilityRooms, Joined, ChatUserRoom, Find, Filtered, OtherKinds;
    var own := ChatUserRoom(m.senderStore, m.senderUser);
    assert own in TargetRooms(m, responsibles);
  }

  /**
   Who may read a thread: of its two stores, and of no other, the masters, and the sellers unless their store attends alone
   and another user of it is the responsible.
   */
  lemma ReadersAreParticipants(t: Thread, m: Message, user: User, disabled: set<Id>)
    requires WellFormed(t, m)
    ensures MayRead(t, user, disabled) <==>
              && user.store in {t.origin.store, t.target.store}
              && (user.role == Seller && user.store !in disabled ==>
                    forall side :: side in {t.origin, t.target} && side.store == user.store && Truthy(side.userId) ==>
                      side.userId.value == user.id)
  {
  }

  /** The database filter selects, among well-formed threads, exactly those the predicate shows to the seller. */
  lemma FilterAgrees(t: Thread, m: Message, user: User)
    requires WellFormed(t, m) && user.role == Seller
    ensures Selected(t, user) <==> Visible(t, user, true)
  {
  }

  /** The thread with the side of `store` wholly recorded. */
  function Completed(t: Thread, store: Id): Thread
  {
    if t.origin.store == store then t.(origin := t.origin.(userName := Some("x"), assignedAt := Some(0)))
    else t.(target := t.target.(userName := Some("x"), assignedAt := Some(0)))
  }

  /**
   The condition is needed, on either side: a responsible who is not wholly recorded is known to pull, but not to push,
   which reaches every seller of the store, sender or not.
   */
  lemma NamelessResponsibleLeaks(t: Thread, m: Message, user: User, others: set<string>)
    requires WellFormed(Completed(t, user.store), m) && OtherKinds(others)
    requires user.store in {t.origin.store, t.target.store} && user.role == Seller && !IsSender(m, user)
    requires var side := SideOf(t, user.store).value;
             Truthy(side.userId) && !Complete(side) && user.id != side.userId.value
    ensures Reached(TargetRooms(m, Filtered(Responsibles(t), {})), user, others) && !Visible(t, user, true)
  {
    var responsibles := Filtered(Responsibles(t), {});
    var other := if t.origin.store == user.store then t.target else t.origin;
    assert ResponsibleOf(SideOf(t, user.store).value) == [] && Responsibles(t) == ResponsibleOf(other);
    NotFoundElsewhere(other, user.store);
    assert user.store in {m.senderStore, m.recipientStore};
    StoreRooms(user.store, responsibles, user, others);
    hide VisibilityRooms, Joined, ChatUserRoom, OtherKinds, Find;
    assert VisibilityRooms(user.store, responsibles) <= TargetRooms(m, responsibles);
  }

  lemma NotFoundElsewhere(side: Side, store: Id)
    requires side.store != store
    ensures Find(Filtered(ResponsibleOf(side), {}), store) == None
  {
    var one := ResponsibleOf(side);
    if one != [] {
      assert one[1..] == [] && Filtered(one, {}) == [one[0]] + [];
    }
  }

  // ---------- the set that is filled in place ----------

  class RoomSet {
    var rooms: set<string>

    constructor (first: string)
      ensures rooms == {first}
    {
      rooms := {first};
    }

    method AddChatVisibilityRooms(store: Id, responsibles: seq<Responsible>)
      modifies this
      ensures rooms == old(rooms) + VisibilityRooms(store, responsibles)
    {
      rooms := rooms + {AttendantRoom(store, Master)};
      for i := 0 to |responsibles|
        invariant Find(responsibles, store) == Find(responsibles[i..], store)
        invariant rooms == old(rooms) + {AttendantRoom(store, Master)}
      {
        if responsibles[i].store == store {
          rooms := rooms + {ChatUserRoom(store, responsibles[i].userId)};
          return;
        }
      }
      rooms := rooms + {AttendantRoom(store, Seller)};
    }
  }

  /** `publish_chat_message` up to the emit. */
  method PublishChatMessage(t: Thread, m: Message, disabled: set<Id>, ghost others: set<string>)
    returns (targetRooms: set<string>)
    requires WellFormed(t, m) && OtherKinds(others)
    ensures forall user: User :: Reached(targetRooms, user, others) <==> MayRead(t, user, disabled) || IsSender(m, user)
  {
    var responsibles := Filtered(Responsibles(t), disabled);
    var target := new RoomSet(ChatUserRoom(m.senderStore, m.senderUser));
    target.AddChatVisibilityRooms(m.senderStore, responsibles);
    target.AddChatVisibilityRooms(m.recipientStore, responsibles);
    targetRooms := target.rooms;
    forall user: User
      ensures Reached(targetRooms, user, others) <==> MayRead(t, user, disabled) || IsSender(m, user)
    {
      PushAgreesWithPull(t, m, user, disabled, others);
    }
  }
}
