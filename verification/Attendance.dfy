/**
 One side of an attendance thread whose store has single-attendant mode enabled, and any number of its users sending
 on it at once (src/repositories/chat_repository.ts, `create_message`). Without transactions every MongoDB command is
 a step of its own; with them the commands of a send take effect together or not at all.
 */
module Attendance {
  import opened Machine
  import opened Redis

  datatype Phase = Opening | Assigning | Updating | Rereading | Inserting | Sent | Refused

  datatype Sender = Sender(user: string, phase: Phase)

  /** `responsible` is `responsible_user_id`, which may be missing; `messages` are the senders, in insertion order. */
  datatype State = State(
    transactions: bool,
    closed: bool,
    responsible: Option<string>,
    senders: map<nat, Sender>,
    messages: seq<string>)

  function Init(transactions: bool, responsible: Option<string>): State
  {
    State(transactions, false, responsible, map[], [])
  }

  datatype Event =
    | Call(w: nat, user: string)
    | ReadThread(w: nat)              // `ensure_thread`, and the first check
    | FindInside(w: nat)              // the read of `assign_thread_side_responsible_if_missing`
    | AssignIfMissing(w: nat)         // its update
    | Reread(w: nat)                  // its second read and check
    | Insert(w: nat)
    | Transaction(w: nat)             // all of the above from `FindInside` on
    | Fail(w: nat)
    | Close

  /** `assert_sender_can_handle_thread_side`: a missing or empty responsible lets anybody pass. */
  predicate MayHandle(responsible: Option<string>, user: string)
  {
    responsible.None? || responsible.value == "" || responsible.value == user
  }

  predicate Is(s: State, w: nat, phase: Phase) { w in s.senders && s.senders[w].phase == phase }

  function Become(s: State, w: nat, phase: Phase): State
    requires w in s.senders
  {
    s.(senders := s.senders[w := s.senders[w].(phase := phase)])
  }

  /** The filter: not closed, and `responsible_user_id` does not exist. */
  function Assigned(s: State, user: string): State
  {
    if !s.closed && s.responsible.None? then s.(responsible := Some(user)) else s
  }

  function Step(s: State, e: Event): Option<State>
  {
    match e
    case Call(w, user) =>
      if w in s.senders || user == "" then None else Some(s.(senders := s.senders[w := Sender(user, Opening)]))
    case ReadThread(w) =>
      if !Is(s, w, Opening) then None
      else Some(Become(s, w, if s.closed || !MayHandle(s.responsible, s.senders[w].user) then Refused else Assigning))
    case FindInside(w) =>
      if s.transactions || !Is(s, w, Assigning) then None
      else Some(Become(s, w, if s.closed then Refused else Updating))
    case AssignIfMissing(w) =>
      if !Is(s, w, Updating) then None else Some(Become(Assigned(s, s.senders[w].user), w, Rereading))
    case Reread(w) =>
      if !Is(s, w, Rereading) then None
      else Some(Become(s, w, if s.closed || !MayHandle(s.responsible, s.senders[w].user) then Refused else Inserting))
    case Insert(w) =>
      if !Is(s, w, Inserting) then None
      else Some(Become(s.(messages := s.messages + [s.senders[w].user]), w, if s.closed then Refused else Sent))
    case Transaction(w) =>
      if !s.transactions || !Is(s, w, Assigning) then None
      else
        var t := Assigned(s, s.senders[w].user);
        Some(if s.closed || !MayHandle(t.responsible, s.senders[w].user) then Become(s, w, Refused)
             else Become(t.(messages := s.messages + [s.senders[w].user]), w, Sent))
    case Fail(w) => if w !in s.senders then None else Some(Become(s, w, Refused))
    case Close => Some(s.(closed := true))
  }

  // ---------- one attendant wins ----------

  ghost predicate Inv(s: State)
  {
    && s.responsible != Some("")
    && (forall w :: w in s.senders ==> s.senders[w].user != "")
    && (forall w :: w in s.senders && s.senders[w].phase == Rereading ==> s.closed || s.responsible.Some?)
    && (forall w :: w in s.senders && s.senders[w].phase == Inserting ==> s.responsible == Some(s.senders[w].user))
    && (forall sender :: sender in s.messages ==> s.responsible == Some(sender))
  }

  lemma StepKeepsInv(s: State, e: Event)
    requires Inv(s) && Step(s, e).Some?
    ensures Inv(Step(s, e).value)
    ensures s.responsible.Some? ==> Step(s, e).value.responsible == s.responsible
  {
  }

  lemma RunKeepsInv(init: State, es: seq<Event>, n: nat)
    requires Inv(init) && Run(Step, init, es).Some? && n <= |es|
    ensures Inv(At(Step, init, es, n))
  {
    AtEnds(Step, init, es);
    hide Step, Inv;
    forall s, e | Inv(s) && Step(s, e).Some? ensures Inv(Step(s, e).value) {
      StepKeepsInv(s, e);
    }
    Always(Step, Inv, init, es, 0, n);
  }

  /** Who becomes responsible stays so. */
  lemma {:induction false} ResponsibleIsForever(
    transactions: bool, responsible: Option<string>, es: seq<Event>, n: nat, m: nat)
    requires responsible != Some("") && Run(Step, Init(transactions, responsible), es).Some? && n <= m <= |es|
    requires At(Step, Init(transactions, responsible), es, n).responsible.Some?
    ensures At(Step, Init(transactions, responsible), es, m).responsible
         == At(Step, Init(transactions, responsible), es, n).responsible
    decreases m
  {
    var init := Init(transactions, responsible);
    hide Step, Run, At;
    if n < m {
      ResponsibleIsForever(transactions, responsible, es, n, m - 1);
      StepAt(Step, init, es, m - 1);
      RunKeepsInv(init, es, m - 1);
      StepKeepsInv(At(Step, init, es, m - 1), es[m - 1]);
    }
  }

  /** Every message that anybody managed to insert on the side, at any time, is from the responsible of the end. */
  lemma OneAttendantWins(transactions: bool, responsible: Option<string>, es: seq<Event>, n: nat, sender: string)
    requires responsible != Some("") && Run(Step, Init(transactions, responsible), es).Some? && n <= |es|
    requires sender in At(Step, Init(transactions, responsible), es, n).messages
    ensures Run(Step, Init(transactions, responsible), es).value.responsible == Some(sender)
    ensures responsible.Some? ==> sender == responsible.value
  {
    hide Run, At, Step;
    var init := Init(transactions, responsible);
    AtEnds(Step, init, es);
    RunKeepsInv(init, es, n);
    ResponsibleIsForever(transactions, responsible, es, n, |es|);
    if responsible.Some? {
      ResponsibleIsForever(transactions, responsible, es, 0, n);
    }
  }

  /** Neither sent nor about to insert. */
  predicate TooLate(s: State, w: nat) { w in s.senders ==> s.senders[w].phase !in {Inserting, Sent} }

  lemma ClosedStep(s: State, e: Event, w: nat)
    requires Step(s, e).Some?
    ensures Step(s, e).value.closed <==> s.closed || e == Close
    ensures s.closed && TooLate(s, w) ==> TooLate(Step(s, e).value, w)
    ensures s.closed && w in s.senders && s.senders[w].phase != Sent ==>
              w in Step(s, e).value.senders && Step(s, e).value.senders[w].phase != Sent
    ensures e in {Insert(w), Transaction(w)} && s.closed && TooLate(s, w) ==> Step(s, e).value.messages == s.messages
  {
  }

  lemma {:induction false} ClosedExactlyAfterClose(init: State, es: seq<Event>, n: nat)
    requires Run(Step, init, es).Some? && n <= |es| && !init.closed
    ensures At(Step, init, es, n).closed <==> Close in es[..n]
  {
    hide Run, At, Step;
    AtEnds(Step, init, es);
    if n > 0 {
      assert es[..n] == es[..n - 1] + [es[n - 1]];
      ClosedExactlyAfterClose(init, es, n - 1);
      StepAt(Step, init, es, n - 1);
      ClosedStep(At(Step, init, es, n - 1), es[n - 1], 0);
    }
  }

  /**
   After a close nobody's send succeeds any more, and only one that was already inserting can still leave a message: every
   other sender, then or later, inserts nothing.
   */
  lemma {:induction false} NobodySendsAfterClose(init: State, es: seq<Event>, n: nat, m: nat, w: nat)
    requires Run(Step, init, es).Some? && !init.closed && n <= m <= |es| && Close in es[..n]
    requires var s := At(Step, init, es, n); w !in s.senders || s.senders[w].phase != Sent
    ensures var t := At(Step, init, es, m); w !in t.senders || t.senders[w].phase != Sent
    ensures TooLate(At(Step, init, es, n), w) ==>
              TooLate(At(Step, init, es, m), w) &&
              (m < |es| && es[m] in {Insert(w), Transaction(w)} ==>
                 At(Step, init, es, m + 1).messages == At(Step, init, es, m).messages)
    decreases m
  {
    hide Run, At, Step, TooLate;
    ClosedExactlyAfterClose(init, es, n);
    if n < m {
      assert es[..n] <= es[..m - 1];
      ClosedExactlyAfterClose(init, es, m - 1);
      NobodySendsAfterClose(init, es, n, m - 1, w);
      StepAt(Step, init, es, m - 1);
      ClosedStep(At(Step, init, es, m - 1), es[m - 1], w);
      if w !in At(Step, init, es, m - 1).senders && w in At(Step, init, es, m).senders {
        NewcomersAreOpening(At(Step, init, es, m - 1), es[m - 1], w);
      }
    }
    if m < |es| {
      assert es[..n] <= es[..m];
      ClosedExactlyAfterClose(init, es, m);
      StepAt(Step, init, es, m);
      ClosedStep(At(Step, init, es, m), es[m], w);
    }
  }

  lemma NewcomersAreOpening(s: State, e: Event, w: nat)
    requires Step(s, e).Some? && w !in s.senders && w in Step(s, e).value.senders
    ensures Step(s, e).value.senders[w].phase == Opening
  {
  }

  /** What a send that nobody disturbs does: the user may send if there is no responsible, or he is it, and then he is. */
  ghost predicate Attended(s: State, t: State, w: nat, user: string)
  {
    var allowed := !s.closed && (s.responsible.None? || s.responsible.value in {"", user});
    && w in t.senders && t.senders[w].phase == (if allowed then Sent else Refused)
    && t.messages == (if allowed then s.messages + [user] else s.messages)
    && t.responsible == (if allowed && s.responsible.None? then Some(user) else s.responsible)
    && t.closed == s.closed && t.senders.Keys == s.senders.Keys + {w}
  }

  /** In every state, an undisturbed send succeeds exactly if its user may attend, and makes him the responsible for good. */
  lemma UndisturbedSend(init: State, es: seq<Event>, s: State, w: nat, user: string) returns (es': seq<Event>, t: State)
    requires Run(Step, init, es) == Some(s) && w !in s.senders && user != ""
    ensures es <= es' && Run(Step, init, es') == Some(t) && Attended(s, t, w, user)
    ensures forall i :: |es| <= i < |es'| ==> es'[i] != Close && es'[i].w == w && !es'[i].Fail?
  {
    hide Run;
    es', t := Extend(Step, init, es, Call(w, user));
    es', t := Extend(Step, init, es', ReadThread(w));
    if Is(t, w, Assigning) {
      es', t := AssignAndSend(init, es', t, w);
    }
  }

  lemma AssignAndSend(init: State, es: seq<Event>, s: State, w: nat) returns (es': seq<Event>, t: State)
    requires Run(Step, init, es) == Some(s) && Is(s, w, Assigning) && !s.closed
    requires MayHandle(s.responsible, s.senders[w].user)
    ensures es <= es' && Run(Step, init, es') == Some(t) && Is(t, w, Sent)
    ensures forall i :: |es| <= i < |es'| ==> es'[i] != Close && es'[i].w == w && !es'[i].Fail?
    ensures t.messages == s.messages + [s.senders[w].user] && t.closed == s.closed && t.senders.Keys == s.senders.Keys
    ensures t.responsible == if s.responsible.None? then Some(s.senders[w].user) else s.responsible
  {
    hide Run;
    if s.transactions {
      es', t := Extend(Step, init, es, Transaction(w));
    } else {
      es', t := Extend(Step, init, es, FindInside(w));
      es', t := Extend(Step, init, es', AssignIfMissing(w));
      es', t := Extend(Step, init, es', Reread(w));
      es', t := Extend(Step, init, es', Insert(w));
    }
  }

  /** The empty responsible is the only state of a side that breaks this: then any two users can both send. */
  lemma EmptyResponsibleLetsAllSend(transactions: bool, v: nat, w: nat, a: string, b: string) returns (es: seq<Event>)
    requires v != w && a != "" && b != ""
    ensures Run(Step, Init(transactions, Some("")), es).Some?
    ensures Run(Step, Init(transactions, Some("")), es).value.messages == [a, b]
  {
    hide Run;
    var init := Init(transactions, Some(""));
    var s;
    es, s := Start(Step, init);
    es, s := UndisturbedSend(init, es, s, v, a);
    es, s := UndisturbedSend(init, es, s, w, b);
  }

  // ---------- the update in place ----------

  class ThreadSide {
    var closed: bool
    var responsible: Option<string>

    constructor ()
      ensures !closed && responsible == None
    {
      closed, responsible := false, None;
    }

    /** `assign_thread_side_responsible_if_missing`, undisturbed: `allowed` is that its check did not throw. */
    method AssignIfMissing(user: string) returns (allowed: bool)
      modifies this`responsible
      ensures closed ==> allowed && responsible == old(responsible)
      ensures !closed && old(responsible).None? ==> allowed && responsible == Some(user)
      ensures !closed && old(responsible).Some? ==>
                responsible == old(responsible) && (allowed <==> old(responsible).value in {"", user})
    {
      if closed {
        return true;
      }
      if responsible.None? {
        responsible := Some(user);
      }
      allowed := MayHandle(responsible, user);
    }
  }
}
