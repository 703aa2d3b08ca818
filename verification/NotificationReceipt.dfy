/**
 The notification of one (store, idempotency key) on `/internal/notifications` (src/http/app.ts,
 src/repositories/notification_repository.ts): requests for it race, fail anywhere and are retried. An event is one
 MongoDB command or one step of a request's handler.
 */
module NotificationReceipt {
  import opened Machine
  import opened Redis

  /** The stored notification; `published` is that `realtime_published_at` is set. */
  datatype Document = Document(id: nat, content: string, published: bool)

  datatype Phase =
    | Finding
    | Inserting
    | Rechecking                            // after a duplicate key error
    | Publishing(id: nat, emitted: bool)    // not suppressed
    | Accepted(id: nat, suppressed: bool)   // 202, with the notification
    | Failed

  datatype Handler = Handler(content: string, phase: Phase)

  /** History: `emitted` is which notification each request published to the sockets, `contents` what each one holds. */
  datatype State = State(
    document: Option<Document>,
    nextId: nat,
    requests: map<nat, Handler>,
    emitted: map<nat, nat>,
    contents: map<nat, string>)

  const INIT: State := State(None, 0, map[], map[], map[])

  /** `reply` is whether the answer to a command that took effect arrives. */
  datatype Event =
    | Request(w: nat, content: string)
    | Find(w: nat)
    | Insert(w: nat, reply: bool)
    | Recheck(w: nat)
    | Emit(w: nat)
    | Mark(w: nat, reply: bool)
    | Fail(w: nat)
    | Delete                                // by somebody else

  function Become(s: State, w: nat, phase: Phase): State
    requires w in s.requests
  {
    s.(requests := s.requests[w := s.requests[w].(phase := phase)])
  }

  predicate Is(s: State, w: nat, phase: Phase) { w in s.requests && s.requests[w].phase == phase }

  predicate IsPublishing(s: State, w: nat) { w in s.requests && s.requests[w].phase.Publishing? }

  /** What finding the notification leads to. */
  function Judge(found: Document, content: string): Phase
  {
    if found.content != content then Failed
    else if found.published then Accepted(found.id, true) else Publishing(found.id, false)
  }

  function Step(s: State, e: Event): Option<State>
  {
    match e
    case Request(w, content) =>
      if w in s.requests then None else Some(s.(requests := s.requests[w := Handler(content, Finding)]))
    case Find(w) =>
      if !Is(s, w, Finding) then None
      else Some(Become(s, w, if s.document.Some? then Judge(s.document.value, s.requests[w].content) else Inserting))
    case Insert(w, reply) =>
      if !Is(s, w, Inserting) then None
      else if s.document.Some? then Some(Become(s, w, Rechecking))
      else
        Some(Become(s, w, if reply then Publishing(s.nextId, false) else Failed)
             .(document := Some(Document(s.nextId, s.requests[w].content, false)), nextId := s.nextId + 1,
               contents := s.contents[s.nextId := s.requests[w].content]))
    case Recheck(w) =>
      if !Is(s, w, Rechecking) then None
      else Some(Become(s, w, if s.document.Some? then Judge(s.document.value, s.requests[w].content) else Failed))
    case Emit(w) =>
      if !IsPublishing(s, w) || s.requests[w].phase.emitted then None
      else Some(Become(s, w, Publishing(s.requests[w].phase.id, true)).(emitted := s.emitted[w := s.requests[w].phase.id]))
    case Mark(w, reply) =>
      if !IsPublishing(s, w) || !s.requests[w].phase.emitted then None
      else if s.document.Some? && s.document.value.id == s.requests[w].phase.id then
        Some(Become(s, w, if reply then Accepted(s.document.value.id, false) else Failed)
             .(document := Some(s.document.value.(published := true))))
      else Some(Become(s, w, Failed))
    case Fail(w) => if w !in s.requests || s.requests[w].phase.Accepted? then None else Some(Become(s, w, Failed))
    case Delete => Some(s.(document := None))
  }

  // ---------- invariant ----------

  /** Somebody has published the notification `id`. */
  ghost predicate Emitted(s: State, id: nat) { exists v :: v in s.emitted && s.emitted[v] == id }

  predicate EmittedBy(s: State, w: nat, id: nat) { w in s.emitted && s.emitted[w] == id }

  ghost predicate RequestOk(s: State, w: nat)
    requires w in s.requests
  {
    match s.requests[w].phase
    case Publishing(id, emitted) => if emitted then EmittedBy(s, w, id) else w !in s.emitted
    case Accepted(id, suppressed) => if suppressed then Emitted(s, id) else EmittedBy(s, w, id)
    case Failed => true
    case _ => w !in s.emitted
  }

  ghost predicate Inv(s: State)
  {
    && (s.document.Some? && s.document.value.published ==> Emitted(s, s.document.value.id))
    && (forall w :: w in s.requests ==> RequestOk(s, w))
    && s.emitted.Keys <= s.requests.Keys
  }

  lemma StepKeepsInv(s: State, e: Event)
    requires Inv(s) && Step(s, e).Some?
    ensures Inv(Step(s, e).value)
  {
    var t := Step(s, e).value;
    assert !e.Delete? && e.w in s.requests ==> RequestOk(s, e.w);
    EmissionsStay(s, e);
    if e.Mark? && IsPublishing(s, e.w) && s.requests[e.w].phase.emitted {
      assert EmittedBy(s, e.w, s.requests[e.w].phase.id);
    }
    forall v | v in t.requests ensures RequestOk(t, v) {
      assert v in s.requests ==> RequestOk(s, v);
    }
  }

  lemma EmissionsStay(s: State, e: Event)
    requires Inv(s) && Step(s, e).Some?
    ensures forall id :: Emitted(s, id) ==> Emitted(Step(s, e).value, id)
  {
    var t := Step(s, e).value;
    assert !e.Delete? && e.w in s.requests ==> RequestOk(s, e.w);
    forall id | Emitted(s, id) ensures Emitted(t, id) {
      var v :| v in s.emitted && s.emitted[v] == id;
      assert v in t.emitted && t.emitted[v] == id;
    }
  }

  lemma RunKeepsInv(es: seq<Event>)
    requires Run(Step, INIT, es).Some?
    ensures Inv(Run(Step, INIT, es).value)
  {
    assert Inv(INIT);
    hide Step, Inv;
    AtEnds(Step, INIT, es);
    forall s, e | Inv(s) && Step(s, e).Some? ensures Inv(Step(s, e).value) {
      StepKeepsInv(s, e);
    }
    Always(Step, Inv, INIT, es, 0, |es|);
  }

  /** Event `k` publishes the notification `id` for request `v`. */
  ghost predicate EmitsAt(es: seq<Event>, k: nat, v: nat, id: nat)
    requires Run(Step, INIT, es).Some?
  {
    k < |es| && es[k] == Emit(v) &&
    var s := At(Step, INIT, es, k); IsPublishing(s, v) && s.requests[v].phase.id == id
  }

  lemma {:induction false} EmittedByEvent(es: seq<Event>, n: nat, v: nat) returns (k: nat)
    requires Run(Step, INIT, es).Some? && n <= |es| && v in At(Step, INIT, es, n).emitted
    ensures k < n && EmitsAt(es, k, v, At(Step, INIT, es, n).emitted[v])
  {
    if n == 0 {
      AtEnds(Step, INIT, es);
      assert false;
    }
    hide Run, At, Step;
    StepAt(Step, INIT, es, n - 1);
    var s := At(Step, INIT, es, n - 1);
    NewEmission(s, es[n - 1], v);
    if v in s.emitted && s.emitted[v] == At(Step, INIT, es, n).emitted[v] {
      k := EmittedByEvent(es, n - 1, v);
    } else {
      k := n - 1;
    }
  }

  lemma NewEmission(s: State, e: Event, v: nat)
    requires Step(s, e).Some? && v in Step(s, e).value.emitted
    ensures (v in s.emitted && s.emitted[v] == Step(s, e).value.emitted[v]) ||
            (e == Emit(v) && IsPublishing(s, v) && s.requests[v].phase.id == Step(s, e).value.emitted[v])
  {
  }

  // ---------- at least once ----------

  /** A stored receipt comes after an emission of that very notification. */
  lemma ReceiptFollowsEmission(es: seq<Event>) returns (k: nat, v: nat)
    requires Run(Step, INIT, es).Some?
    requires var s := Run(Step, INIT, es).value; s.document.Some? && s.document.value.published
    ensures EmitsAt(es, k, v, Run(Step, INIT, es).value.document.value.id)
  {
    RunKeepsInv(es);
    AtEnds(Step, INIT, es);
    hide Run, At, Step, EmitsAt;
    var s := Run(Step, INIT, es).value;
    assert Emitted(s, s.document.value.id);
    v :| v in s.emitted && s.emitted[v] == s.document.value.id;
    k := EmittedByEvent(es, |es|, v);
  }

  /** Every 202 comes after an emission of the notification in it; one that is not suppressed, after its own. */
  lemma AcceptedFollowsEmission(es: seq<Event>, w: nat) returns (k: nat, v: nat)
    requires Run(Step, INIT, es).Some?
    requires var s := Run(Step, INIT, es).value; w in s.requests && s.requests[w].phase.Accepted?
    ensures EmitsAt(es, k, v, Run(Step, INIT, es).value.requests[w].phase.id)
    ensures !Run(Step, INIT, es).value.requests[w].phase.suppressed ==> v == w
  {
    RunKeepsInv(es);
    AtEnds(Step, INIT, es);
    hide Run, At, Step, EmitsAt;
    var s := Run(Step, INIT, es).value;
    assert RequestOk(s, w);
    var id := s.requests[w].phase.id;
    if s.requests[w].phase.suppressed {
      v :| v in s.emitted && s.emitted[v] == id;
    } else {
      v := w;
    }
    k := EmittedByEvent(es, |es|, v);
  }

  /** What a request publishes or is answered is a notification with the contents it asked for. */
  ghost predicate ContentsOk(s: State)
  {
    && (forall id :: id in s.contents ==> id < s.nextId)
    && (s.document.Some? ==>
          s.document.value.id in s.contents && s.contents[s.document.value.id] == s.document.value.content)
    && (forall w :: w in s.requests ==> AsksFor(s, s.requests[w]))
  }

  predicate AsksFor(s: State, request: Handler)
  {
    match request.phase
    case Publishing(id, _) => id in s.contents && s.contents[id] == request.content
    case Accepted(id, _) => id in s.contents && s.contents[id] == request.content
    case _ => true
  }

  lemma ContentsStay(s: State, e: Event)
    requires ContentsOk(s) && Step(s, e).Some?
    ensures ContentsOk(Step(s, e).value)
  {
    var t := Step(s, e).value;
    forall w | w in t.requests ensures AsksFor(t, t.requests[w]) {
      assert w in s.requests ==> AsksFor(s, s.requests[w]);
      assert !e.Delete? && e.w in s.requests ==> AsksFor(s, s.requests[e.w]);
    }
  }

  /** No request is ever answered with a notification of other contents, nor publishes one, in any race. */
  lemma AnswersHaveTheContents(es: seq<Event>, w: nat)
    requires Run(Step, INIT, es).Some? && w in Run(Step, INIT, es).value.requests
    ensures var s := Run(Step, INIT, es).value; ContentsOk(s) && AsksFor(s, s.requests[w])
  {
    AtEnds(Step, INIT, es);
    hide Step;
    forall s, e | ContentsOk(s) && Step(s, e).Some? ensures ContentsOk(Step(s, e).value) {
      ContentsStay(s, e);
    }
    Always(Step, ContentsOk, INIT, es, 0, |es|);
  }

  /** A request that had not started when the receipt was there, or that has been turned away since. */
  ghost predicate Late(s: State, w: nat)
  {
    && s.document.Some? && s.document.value.published && w !in s.emitted
    && (w in s.requests ==>
          var phase := s.requests[w].phase;
          phase.Finding? || phase.Failed? || (phase.Accepted? && phase.suppressed))
  }

  lemma LateStays(s: State, e: Event, w: nat)
    requires Late(s, w) && Step(s, e).Some? && e != Delete
    ensures Late(Step(s, e).value, w) && e != Emit(w)
  {
  }

  /** Once the receipt is stored, no request that starts later emits again, unless the notification is deleted. */
  lemma {:induction false} NoEmissionAfterReceipt(es: seq<Event>, n: nat, m: nat, w: nat)
    requires Run(Step, INIT, es).Some? && n <= m <= |es| && Delete !in es[n..m]
    requires var s := At(Step, INIT, es, n);
             && s.document.Some? && s.document.value.published && w !in s.requests && w !in s.emitted
    ensures Emit(w) !in es[n..m] && Late(At(Step, INIT, es, m), w)
    decreases m
  {
    hide Run, Step;
    if n < m {
      assert es[n..m] == es[n..m - 1] + [es[m - 1]];
      NoEmissionAfterReceipt(es, n, m - 1, w);
      StepAt(Step, INIT, es, m - 1);
      LateStays(At(Step, INIT, es, m - 1), es[m - 1], w);
    } else {
      assert es[n..m] == [];
    }
  }

  /**
   Whatever failed before, a retry that is left alone succeeds: it ends accepted, with its contents stored and a receipt, and
   has published the notification unless there was a receipt already. With other contents it is refused, and changes nothing.
   */
  lemma RetrySucceeds(es: seq<Event>, w: nat, content: string) returns (fs: seq<Event>)
    requires Run(Step, INIT, es).Some? && w !in Run(Step, INIT, es).value.requests
    ensures es <= fs && Run(Step, INIT, fs).Some?
    ensures Retried(Run(Step, INIT, es).value, Run(Step, INIT, fs).value, w, content)
  {
    hide Run;
    RunKeepsInv(es);
    var s := Run(Step, INIT, es).value;
    fs, s := Extend(Step, INIT, es, Request(w, content));
    fs, s := Extend(Step, INIT, fs, Find(w));
    if Is(s, w, Inserting) {
      fs, s := Extend(Step, INIT, fs, Insert(w, true));
    }
    if IsPublishing(s, w) {
      fs, s := PublishAlone(fs, s, w);
    }
  }

  /** The request `w` has run alone between `s` and `t`. */
  ghost predicate Retried(s: State, t: State, w: nat, content: string)
  {
    && w in t.requests
    && if s.document.Some? && s.document.value.content != content
       then t.requests[w].phase == Failed && t.document == s.document && t.emitted == s.emitted
       else
         && t.document.Some? && t.document.value.published && t.document.value.content == content
         && var suppressed := s.document.Some? && s.document.value.published;
            && t.requests[w].phase == Accepted(t.document.value.id, suppressed)
            && (if suppressed then t.emitted == s.emitted else EmittedBy(t, w, t.document.value.id))
  }

  lemma PublishAlone(es: seq<Event>, s: State, w: nat) returns (es': seq<Event>, t: State)
    requires Run(Step, INIT, es) == Some(s) && s.document.Some? && Is(s, w, Publishing(s.document.value.id, false))
    ensures es <= es' && Run(Step, INIT, es') == Some(t)
    ensures t.document == Some(s.document.value.(published := true))
    ensures Is(t, w, Accepted(s.document.value.id, false)) && EmittedBy(t, w, s.document.value.id)
  {
    hide Run;
    es', t := Extend(Step, INIT, es, Emit(w));
    es', t := Extend(Step, INIT, es', Mark(w, true));
  }

  /** How a request ends that is left alone from `s` on, wherever it stands. */
  ghost predicate Concluded(s: State, t: State, w: nat)
    requires w in s.requests
  {
    var Handler(content, phase) := s.requests[w];
    && w in t.requests
    && match phase {
         case Finding => Retried(s, t, w, content)
         case Inserting => Retried(s, t, w, content)
         case Rechecking =>
           if s.document.Some? then Retried(s, t, w, content) else t.requests[w].phase == Failed && t.document == None
         case Publishing(id, _) =>
           if s.document.Some? && s.document.value.id == id
           then t.requests[w].phase == Accepted(id, false) && t.document == Some(s.document.value.(published := true)) &&
                EmittedBy(t, w, id)
           else t.requests[w].phase == Failed && t.document == s.document
         case _ => t == s
       }
  }

  /**
   However far a request has come in whatever race - before or after a duplicate key, before or after its emission - it ends
   accepted if the stored notification is the one it asked for, and otherwise refused.
   */
  lemma LeftAloneConcludes(es: seq<Event>, s: State, w: nat) returns (fs: seq<Event>, t: State)
    requires Run(Step, INIT, es) == Some(s) && w in s.requests
    ensures es <= fs && Run(Step, INIT, fs) == Some(t) && Concluded(s, t, w)
  {
    RunKeepsInv(es);
    assert RequestOk(s, w);
    hide Run, Step, Inv, Judge;
    fs, t := es, s;
    match s.requests[w].phase
    case Finding => fs, t := LookAlone(fs, t, w);
    case Inserting => fs, t := InsertAlone(fs, t, w);
    case Rechecking => fs, t := RecheckAlone(fs, t, w);
    case Publishing(id, emitted) => fs, t := MarkAlone(fs, t, w);
    case _ =>
  }

  lemma LookAlone(es: seq<Event>, s: State, w: nat) returns (fs: seq<Event>, t: State)
    requires Run(Step, INIT, es) == Some(s) && Is(s, w, Finding)
    ensures es <= fs && Run(Step, INIT, fs) == Some(t) && Retried(s, t, w, s.requests[w].content)
  {
    hide Run, Retried;
    fs, t := Extend(Step, INIT, es, Find(w));
    if s.document.None? {
      fs, t := InsertAlone(fs, t, w);
      SameStart(s, s.(requests := s.requests[w := s.requests[w].(phase := Inserting)]), t, w);
    } else {
      fs, t := JudgedAlone(fs, s, t, w);
    }
  }

  lemma SameStart(s: State, s': State, t: State, w: nat)
    requires w in s.requests && s'.document == s.document && s'.emitted == s.emitted
    ensures Retried(s', t, w, s.requests[w].content) ==> Retried(s, t, w, s.requests[w].content)
  {
  }

  lemma InsertAlone(es: seq<Event>, s: State, w: nat) returns (fs: seq<Event>, t: State)
    requires Run(Step, INIT, es) == Some(s) && Is(s, w, Inserting)
    ensures es <= fs && Run(Step, INIT, fs) == Some(t) && Retried(s, t, w, s.requests[w].content)
  {
    hide Run;
    fs, t := Extend(Step, INIT, es, Insert(w, true));
    if s.document.None? {
      fs, t := PublishAlone(fs, t, w);
    } else {
      fs, t := RecheckAlone(fs, t, w);
    }
  }

  lemma RecheckAlone(es: seq<Event>, s: State, w: nat) returns (fs: seq<Event>, t: State)
    requires Run(Step, INIT, es) == Some(s) && Is(s, w, Rechecking)
    ensures es <= fs && Run(Step, INIT, fs) == Some(t)
    ensures if s.document.Some? then Retried(s, t, w, s.requests[w].content)
            else Is(t, w, Failed) && t.document == None
  {
    hide Run, Retried;
    fs, t := Extend(Step, INIT, es, Recheck(w));
    if s.document.Some? {
      fs, t := JudgedAlone(fs, s, t, w);
    }
  }

  /** After finding the notification. */
  lemma JudgedAlone(es: seq<Event>, s: State, s1: State, w: nat) returns (fs: seq<Event>, t: State)
    requires w in s.requests && s.document.Some? && Run(Step, INIT, es) == Some(s1)
    requires s1 == Become(s, w, Judge(s.document.value, s.requests[w].content))
    ensures es <= fs && Run(Step, INIT, fs) == Some(t) && Retried(s, t, w, s.requests[w].content)
  {
    hide Run;
    fs, t := es, s1;
    if IsPublishing(s1, w) {
      fs, t := PublishAlone(fs, t, w);
    }
  }

  lemma MarkAlone(es: seq<Event>, s: State, w: nat) returns (fs: seq<Event>, t: State)
    requires Run(Step, INIT, es) == Some(s) && IsPublishing(s, w) && RequestOk(s, w)
    ensures es <= fs && Run(Step, INIT, fs) == Some(t) && Concluded(s, t, w)
  {
    hide Run, Retried;
    fs, t := es, s;
    if !s.requests[w].phase.emitted {
      fs, t := Extend(Step, INIT, fs, Emit(w));
    }
    fs, t := Extend(Step, INIT, fs, Mark(w, true));
  }

  /**
   An answer lost after the command took effect: the request fails although its notification is stored, or its receipt. The
   retry publishes in the first case, and in the second is told so without publishing again.
   */
  lemma LostAnswersAreRecovered(v: nat, w: nat, content: string, marked: bool) returns (es: seq<Event>, t: State)
    requires v != w
    ensures Run(Step, INIT, es) == Some(t) && Is(t, v, Failed) && Is(t, w, Accepted(0, marked))
    ensures t.document == Some(Document(0, content, true))
    ensures t.emitted == map[if marked then v else w := 0]
  {
    hide Run, Retried;
    var s;
    es, s := Start(Step, INIT);
    es, s := Extend(Step, INIT, es, Request(v, content));
    es, s := Extend(Step, INIT, es, Find(v));
    es, s := Extend(Step, INIT, es, Insert(v, marked));
    if marked {
      es, s := Extend(Step, INIT, es, Emit(v));
      es, s := Extend(Step, INIT, es, Mark(v, false));
    }
    es, t := RetryOf(es, s, w, content);
  }

  lemma RetryOf(es: seq<Event>, s: State, w: nat, content: string) returns (fs: seq<Event>, t: State)
    requires Run(Step, INIT, es) == Some(s) && w !in s.requests
    requires s.document.Some? && s.document.value.content == content
    ensures Run(Step, INIT, fs) == Some(t) && t.document == Some(s.document.value.(published := true))
    ensures Is(t, w, Accepted(s.document.value.id, s.document.value.published))
    ensures t.emitted == if s.document.value.published then s.emitted else s.emitted[w := s.document.value.id]
    ensures forall v :: v in s.requests ==> v in t.requests && t.requests[v] == s.requests[v]
  {
    hide Run;
    fs, t := Extend(Step, INIT, es, Request(w, content));
    fs, t := Extend(Step, INIT, fs, Find(w));
    if !s.document.value.published {
      fs, t := Extend(Step, INIT, fs, Emit(w));
      fs, t := Extend(Step, INIT, fs, Mark(w, true));
    }
  }

  /** Not at most once: two racing requests can both emit. */
  lemma BothMayEmit(v: nat, w: nat, content: string) returns (es: seq<Event>)
    requires v != w
    ensures Run(Step, INIT, es).Some? && Emit(v) in es && Emit(w) in es
    ensures var t := Run(Step, INIT, es).value; Is(t, v, Accepted(0, false)) && Is(t, w, Accepted(0, false))
  {
    hide Run, Step;
    var s;
    es, s := BothArePublishing(v, w, content);
    es, s := BothPublish(es, s, v, w);
  }

  lemma BothArePublishing(v: nat, w: nat, content: string) returns (es: seq<Event>, s: State)
    requires v != w
    ensures Run(Step, INIT, es) == Some(s) && s.document.Some? && s.document.value.id == 0
    ensures Is(s, v, Publishing(0, false)) && Is(s, w, Publishing(0, false))
  {
    hide Run;
    es, s := Start(Step, INIT);
    es, s := Extend(Step, INIT, es, Request(v, content));
    es, s := Extend(Step, INIT, es, Find(v));
    es, s := Extend(Step, INIT, es, Insert(v, true));
    es, s := Extend(Step, INIT, es, Request(w, content));
    es, s := Extend(Step, INIT, es, Find(w));
  }

  lemma BothPublish(es: seq<Event>, s: State, v: nat, w: nat) returns (es': seq<Event>, t: State)
    requires v != w && Run(Step, INIT, es) == Some(s) && s.document.Some?
    requires var phase := Publishing(s.document.value.id, false); Is(s, v, phase) && Is(s, w, phase)
    ensures es' == es + [Emit(v), Emit(w), Mark(v, true), Mark(w, true)] && Run(Step, INIT, es') == Some(t)
    ensures var phase := Accepted(s.document.value.id, false); Is(t, v, phase) && Is(t, w, phase)
  {
    hide Run;
    es', t := Extend(Step, INIT, es, Emit(v));
    es', t := Extend(Step, INIT, es', Emit(w));
    es', t := Extend(Step, INIT, es', Mark(v, true));
    es', t := Extend(Step, INIT, es', Mark(w, true));
  }
}
