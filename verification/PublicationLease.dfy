/**
 The receipt of one (store, idempotency key) of `/internal/publication-results`
 (src/repositories/publication_result_repository.ts, src/http/app.ts), and any number of requests for it. An event
 is one MongoDB command of one request, or a step of its handler. Each request reads its own clock once, when
 `claim` starts; its claim id is fresh, so it is identified with the request.
 */
module PublicationLease {
  import opened Machine
  import opened Redis

  const TAKEOVER_MS := 60_000

  /** The document; `doc` stands for its `_id`. */
  datatype Receipt = Receipt(
    doc: nat,
    fingerprint: string,
    published: bool,
    claim: nat,
    lockedAt: Option<int>)

  datatype Phase =
    | Inserting
    | Finding
    | Reclaiming(seen: nat, doc: nat)
    | Holding(emitted: bool)        // `claimed`, until `mark_published` or an error
    | Releasing
    | Busy                          // 425
    | Conflict                      // the key was used for another payload
    | Duplicate                     // 202, suppressed
    | Published                     // 202, suppressed: false
    | Failed                        // the error is passed on

  datatype Worker = Worker(fingerprint: string, now: int, phase: Phase)

  /** History of a document: who claimed it, in order, and how it ended. */
  datatype Fate = Live | Released | Expired
  datatype History = History(claims: seq<nat>, fate: Fate)

  /** History: `claimed` is the document each request claimed, `emitted` the requests that told the sockets. */
  datatype State = State(
    receipt: Option<Receipt>,
    workers: map<nat, Worker>,
    nextDoc: nat,
    documents: map<nat, History>,
    claimed: map<nat, nat>,
    emitted: set<nat>)

  const INIT: State := State(None, map[], 0, map[], map[], {})

  /** `reply` is whether the answer to a command that took effect arrives; without it the caller sees an error. */
  datatype Event =
    | Request(w: nat, fingerprint: string, now: int)
    | Insert(w: nat, reply: bool)
    | Find(w: nat)
    | Reclaim(w: nat, reply: bool)
    | Emit(w: nat)
    | Mark(w: nat, reply: bool)
    | Throw(w: nat)                 // any other error of the handler
    | Release(w: nat)
    | Expire                        // the TTL index

  // ---------- steps ----------

  function Now(s: State, w: nat, phase: Phase): State
    requires w in s.workers
  {
    s.(workers := s.workers[w := s.workers[w].(phase := phase)])
  }

  predicate Is(s: State, w: nat, phase: Phase) { w in s.workers && s.workers[w].phase == phase }

  predicate Holds(s: State, w: nat) { w in s.workers && s.workers[w].phase.Holding? }

  /** The filter of `mark_published` and `release`. */
  predicate Fenced(s: State, w: nat)
    requires w in s.workers
  {
    s.receipt.Some? && s.receipt.value.fingerprint == s.workers[w].fingerprint &&
    !s.receipt.value.published && s.receipt.value.claim == w
  }

  /** The filter of the takeover. */
  predicate Unmoved(s: State, w: nat)
    requires w in s.workers && s.workers[w].phase.Reclaiming?
  {
    var (seen, doc) := (s.workers[w].phase.seen, s.workers[w].phase.doc);
    s.receipt.Some? && s.receipt.value.doc == doc && !s.receipt.value.published &&
    s.receipt.value.fingerprint == s.workers[w].fingerprint && s.receipt.value.claim == seen
  }

  function HistoryOf(s: State, doc: nat): History
  {
    if doc in s.documents then s.documents[doc] else History([], Live)
  }

  function Claimed(s: State, w: nat, receipt: Receipt, reply: bool): State
    requires w in s.workers
  {
    var history := History(HistoryOf(s, receipt.doc).claims + [w], Live);
    Now(s.(receipt := Some(receipt), documents := s.documents[receipt.doc := history],
           claimed := s.claimed[w := receipt.doc]),
        w, if reply then Holding(false) else Failed)
  }

  function Found(s: State, w: nat): Phase
    requires w in s.workers
  {
    if s.receipt.None? then Busy
    else
      var r := s.receipt.value;
      if r.fingerprint != s.workers[w].fingerprint then Conflict
      else if r.published then Duplicate
      else if r.lockedAt.Some? && r.lockedAt.value > s.workers[w].now - TAKEOVER_MS then Busy
      else Reclaiming(r.claim, r.doc)
  }

  function Ended(s: State, fate: Fate): State
    requires s.receipt.Some?
  {
    var doc := s.receipt.value.doc;
    s.(receipt := None, documents := s.documents[doc := HistoryOf(s, doc).(fate := fate)])
  }

  function Step(s: State, e: Event): Option<State>
  {
    match e
    case Request(w, fingerprint, now) =>
      if w in s.workers then None
      else Some(s.(workers := s.workers[w := Worker(fingerprint, now, Inserting)]))
    case Insert(w, reply) =>
      if !Is(s, w, Inserting) then None
      else if s.receipt.Some? then Some(Now(s, w, Finding))
      else
        var receipt := Receipt(s.nextDoc, s.workers[w].fingerprint, false, w, Some(s.workers[w].now));
        Some(Claimed(s, w, receipt, reply).(nextDoc := s.nextDoc + 1))
    case Find(w) => if !Is(s, w, Finding) then None else Some(Now(s, w, Found(s, w)))
    case Reclaim(w, reply) =>
      if !(w in s.workers && s.workers[w].phase.Reclaiming?) then None
      else if !Unmoved(s, w) then Some(Now(s, w, Busy))
      else
        Some(Claimed(s, w, s.receipt.value.(claim := w, lockedAt := Some(s.workers[w].now)), reply))
    case Emit(w) =>
      if !Is(s, w, Holding(false)) then None else Some(Now(s, w, Holding(true)).(emitted := s.emitted + {w}))
    case Mark(w, reply) =>
      if !Is(s, w, Holding(true)) then None
      else if !Fenced(s, w) then Some(Now(s, w, Releasing))
      else
        Some(Now(s, w, if reply then Published else Releasing)
             .(receipt := Some(s.receipt.value.(published := true, lockedAt := None))))
    case Throw(w) =>
      if w !in s.workers then None
      else
        (match s.workers[w].phase
         case Holding(_) => Some(Now(s, w, Releasing))
         case Inserting => Some(Now(s, w, Failed))
         case Finding => Some(Now(s, w, Failed))
         case Reclaiming(_, _) => Some(Now(s, w, Failed))
         case Releasing => Some(Now(s, w, Failed))      // `release` itself failed
         case _ => None)
    case Release(w) =>
      if !Is(s, w, Releasing) then None
      else if Fenced(s, w) then Some(Now(Ended(s, Fate.Released), w, Failed))
      else Some(Now(s, w, Failed))
    case Expire =>
      if s.receipt.None? then None else Some(Ended(s, Expired))
  }

  // ---------- invariant ----------

  ghost predicate ReceiptOk(s: State)
  {
    s.receipt.Some? ==>
      var r := s.receipt.value;
      && r.doc + 1 == s.nextDoc && r.doc in s.documents && s.documents[r.doc].fate == Live
      && s.documents[r.doc].claims != [] && Last(s.documents[r.doc].claims) == r.claim
      && r.claim in s.workers && s.workers[r.claim].fingerprint == r.fingerprint
      && (r.published ==> r.claim in s.emitted)
      && (!r.published ==> r.lockedAt == Some(s.workers[r.claim].now))
  }

  function Last(claims: seq<nat>): nat
    requires claims != []
  {
    claims[|claims| - 1]
  }

  /** A later claimer's clock is past the takeover time of every earlier one. */
  ghost predicate Spaced(workers: map<nat, Worker>, claims: seq<nat>)
  {
    && (forall w :: w in claims ==> w in workers)
    && (forall i, j :: 0 <= i < j < |claims| ==> workers[claims[j]].now >= workers[claims[i]].now + TAKEOVER_MS)
  }

  ghost predicate DocumentOk(s: State, d: nat)
    requires d in s.documents
  {
    var h := s.documents[d];
    && d < s.nextDoc && h.claims != [] && Spaced(s.workers, h.claims)
    && (forall w :: w in h.claims ==> w in s.claimed && s.claimed[w] == d)
    && (h.fate == Live ==> s.receipt.Some? && s.receipt.value.doc == d)
    && (h.fate == Fate.Released ==> !Holds(s, Last(h.claims)))
  }

  predicate Claiming(phase: Phase)
  {
    phase.Inserting? || phase.Finding? || phase.Reclaiming?
  }

  /** A request for this very result has published it. */
  ghost predicate ResultEmitted(s: State, fingerprint: string)
  {
    exists v :: v in s.emitted && v in s.workers && s.workers[v].fingerprint == fingerprint
  }

  ghost predicate WorkerOk(s: State, w: nat)
    requires w in s.workers
  {
    var worker := s.workers[w];
    && (worker.phase.Reclaiming? ==>
          worker.phase.seen in s.workers && worker.now >= s.workers[worker.phase.seen].now + TAKEOVER_MS)
    && (Claiming(worker.phase) ==> w !in s.claimed)
    && (worker.phase.Holding? ==>
          w in s.claimed && s.claimed[w] in s.documents && w in s.documents[s.claimed[w]].claims)
    && (worker.phase == Holding(true) || worker.phase == Published ==> w in s.emitted)
    && (worker.phase == Duplicate ==> ResultEmitted(s, worker.fingerprint))
  }

  ghost predicate Inv(s: State)
  {
    && ReceiptOk(s)
    && (forall d :: d in s.documents ==> DocumentOk(s, d))
    && (forall w :: w in s.workers ==> WorkerOk(s, w))
    && s.claimed.Keys <= s.workers.Keys
  }

  lemma StepKeepsInv(s: State, e: Event)
    requires Inv(s) && Step(s, e).Some?
    ensures Inv(Step(s, e).value)
  {
    hide ReceiptOk, DocumentOk;
    assert e.Expire? || (e.w in s.workers ==> WorkerOk(s, e.w));
    match e
    case Request(w, fingerprint, now) => RequestKeeps(s, w, Worker(fingerprint, now, Inserting));
    case Insert(w, reply) => if s.receipt.None? { InsertKeeps(s, w, reply); } else { PhaseKeeps(s, w, Finding); }
    case Find(w) => FindKeeps(s, w);
    case Reclaim(w, reply) => if Unmoved(s, w) { ReclaimKeeps(s, w, reply); } else { PhaseKeeps(s, w, Busy); }
    case Emit(w) => EmitKeeps(s, w);
    case Mark(w, reply) =>
      if Fenced(s, w) { MarkKeeps(s, w, if reply then Published else Releasing); } else { PhaseKeeps(s, w, Releasing); }
    case Throw(w) => PhaseKeeps(s, w, Step(s, e).value.workers[w].phase);
    case Release(w) => if Fenced(s, w) { ReleaseKeeps(s, w); } else { PhaseKeeps(s, w, Failed); }
    case Expire => EndKeeps(s, Expired);
  }

  /** Only request `w` changes, and neither its clock nor, unless it held already, its not holding. */
  ghost predicate OnlyWorker(s: State, t: State, w: nat)
  {
    && w in t.workers && t.workers == s.workers[w := t.workers[w]]
    && (w in s.workers ==> t.workers[w].now == s.workers[w].now && t.workers[w].fingerprint == s.workers[w].fingerprint)
  }

  ghost predicate SameClaims(s: State, t: State, w: nat)
  {
    && OnlyWorker(s, t, w) && (Holds(t, w) ==> Holds(s, w))
    && t.documents == s.documents && t.claimed == s.claimed && t.nextDoc == s.nextDoc
    && (s.receipt.Some? ==> t.receipt.Some? && t.receipt.value.doc == s.receipt.value.doc)
  }

  lemma DocumentsStay(s: State, t: State, w: nat)
    requires SameClaims(s, t, w) && forall d :: d in s.documents ==> DocumentOk(s, d)
    ensures forall d :: d in t.documents ==> DocumentOk(t, d)
  {
    forall d | d in t.documents ensures DocumentOk(t, d) {
      assert DocumentOk(s, d);
    }
  }

  ghost predicate ClaimsKept(before: map<nat, History>, after: map<nat, History>)
  {
    forall d, w :: d in before && w in before[d].claims ==> d in after && w in after[d].claims
  }

  lemma OthersStay(s: State, t: State, w: nat)
    requires OnlyWorker(s, t, w) && forall v :: v in s.workers ==> WorkerOk(s, v)
    requires s.emitted <= t.emitted && ClaimsKept(s.documents, t.documents)
    requires t.claimed == s.claimed || (w in t.claimed && t.claimed == s.claimed[w := t.claimed[w]])
    ensures forall v :: v in t.workers && v != w ==> WorkerOk(t, v)
  {
    forall v | v in t.workers && v != w ensures WorkerOk(t, v) {
      assert WorkerOk(s, v);
      if s.workers[v].phase == Duplicate {
        EmissionsStay(s, t, w, s.workers[v].fingerprint);
      }
    }
  }

  lemma EmissionsStay(s: State, t: State, w: nat, fingerprint: string)
    requires OnlyWorker(s, t, w) && s.emitted <= t.emitted && ResultEmitted(s, fingerprint)
    ensures ResultEmitted(t, fingerprint)
  {
    var v :| v in s.emitted && v in s.workers && s.workers[v].fingerprint == fingerprint;
    assert v in t.emitted && v in t.workers && t.workers[v].fingerprint == fingerprint;
  }

  /** A step that claims nothing keeps the invariant if it keeps it for the receipt and the request that moved. */
  lemma QuietKeeps(s: State, t: State, w: nat)
    requires Inv(s) && SameClaims(s, t, w) && s.emitted <= t.emitted
    requires ReceiptOk(t) && WorkerOk(t, w) && t.claimed.Keys <= t.workers.Keys
    ensures Inv(t)
  {
    DocumentsStay(s, t, w);
    OthersStay(s, t, w);
    hide DocumentOk, WorkerOk, ReceiptOk;
  }

  /** A change of one request's phase alone, to one it may be in. */
  lemma PhaseKeeps(s: State, w: nat, phase: Phase)
    requires Inv(s) && w in s.workers && (phase.Holding? ==> Holds(s, w))
    requires WorkerOk(Now(s, w, phase), w)
    ensures Inv(Now(s, w, phase))
  {
    QuietKeeps(s, Now(s, w, phase), w);
  }

  lemma FindKeeps(s: State, w: nat)
    requires Inv(s) && Is(s, w, Finding)
    ensures Inv(Now(s, w, Found(s, w)))
  {
    assert WorkerOk(s, w);
    var t := Now(s, w, Found(s, w));
    if s.receipt.Some? && s.receipt.value.published {
      assert s.receipt.value.claim in t.emitted && s.receipt.value.claim in t.workers;
    }
    hide DocumentOk;
    PhaseKeeps(s, w, Found(s, w));
  }

  lemma RequestKeeps(s: State, w: nat, worker: Worker)
    requires Inv(s) && w !in s.workers && worker.phase == Inserting
    ensures Inv(s.(workers := s.workers[w := worker]))
  {
    QuietKeeps(s, s.(workers := s.workers[w := worker]), w);
  }

  lemma EmitKeeps(s: State, w: nat)
    requires Inv(s) && Holds(s, w)
    ensures Inv(Now(s, w, Holding(true)).(emitted := s.emitted + {w}))
  {
    assert WorkerOk(s, w);
    QuietKeeps(s, Now(s, w, Holding(true)).(emitted := s.emitted + {w}), w);
  }

  lemma MarkKeeps(s: State, w: nat, phase: Phase)
    requires Inv(s) && Is(s, w, Holding(true)) && Fenced(s, w) && phase in {Published, Releasing}
    ensures Inv(Now(s, w, phase).(receipt := Some(s.receipt.value.(published := true, lockedAt := None))))
  {
    assert WorkerOk(s, w);
    QuietKeeps(s, Now(s, w, phase).(receipt := Some(s.receipt.value.(published := true, lockedAt := None))), w);
  }

  /** A claim changes its own document and its own request only. */
  lemma ClaimKeeps(s: State, w: nat, receipt: Receipt, reply: bool, nextDoc: nat)
    requires Inv(s) && w in s.workers && Claiming(s.workers[w].phase)
    requires receipt.claim == w && receipt.fingerprint == s.workers[w].fingerprint && !receipt.published
    requires receipt.lockedAt == Some(s.workers[w].now) && receipt.doc + 1 == nextDoc >= s.nextDoc
    requires s.receipt.Some? ==> s.receipt.value.doc == receipt.doc
    requires Spaced(s.workers, HistoryOf(s, receipt.doc).claims + [w])
    requires forall v :: v in HistoryOf(s, receipt.doc).claims ==> v in s.claimed && s.claimed[v] == receipt.doc
    ensures Inv(Claimed(s, w, receipt, reply).(nextDoc := nextDoc))
  {
    var t := Claimed(s, w, receipt, reply).(nextDoc := nextDoc);
    assert WorkerOk(s, w);
    ClaimKeepsDocuments(s, w, receipt, reply, nextDoc);
    OthersStay(s, t, w);
    hide DocumentOk;
    assert t.documents[receipt.doc].claims == HistoryOf(s, receipt.doc).claims + [w];
  }

  lemma ClaimKeepsDocuments(s: State, w: nat, receipt: Receipt, reply: bool, nextDoc: nat)
    requires Inv(s) && w in s.workers && w !in s.claimed
    requires receipt.doc + 1 == nextDoc >= s.nextDoc
    requires s.receipt.Some? ==> s.receipt.value.doc == receipt.doc
    requires Spaced(s.workers, HistoryOf(s, receipt.doc).claims + [w])
    requires forall v :: v in HistoryOf(s, receipt.doc).claims ==> v in s.claimed && s.claimed[v] == receipt.doc
    ensures var t := Claimed(s, w, receipt, reply).(nextDoc := nextDoc);
            forall d :: d in t.documents ==> DocumentOk(t, d)
  {
    hide ReceiptOk, WorkerOk;
    var t := Claimed(s, w, receipt, reply).(nextDoc := nextDoc);
    forall d | d in t.documents ensures DocumentOk(t, d) {
      if d != receipt.doc {
        assert DocumentOk(s, d);
      }
    }
  }

  lemma NextIsUnclaimed(s: State)
    requires Inv(s)
    ensures HistoryOf(s, s.nextDoc).claims == []
  {
    assert s.nextDoc in s.documents ==> DocumentOk(s, s.nextDoc);
  }

  lemma InsertKeeps(s: State, w: nat, reply: bool)
    requires Inv(s) && Is(s, w, Inserting) && s.receipt.None?
    ensures var receipt := Receipt(s.nextDoc, s.workers[w].fingerprint, false, w, Some(s.workers[w].now));
            Inv(Claimed(s, w, receipt, reply).(nextDoc := s.nextDoc + 1))
  {
    hide Inv, Claimed;
    NextIsUnclaimed(s);
    assert Spaced(s.workers, [w]);
    assert HistoryOf(s, s.nextDoc).claims + [w] == [w];
    hide Spaced, HistoryOf;
    ClaimKeeps(s, w, Receipt(s.nextDoc, s.workers[w].fingerprint, false, w, Some(s.workers[w].now)), reply, s.nextDoc + 1);
  }

  lemma ReclaimKeeps(s: State, w: nat, reply: bool)
    requires Inv(s) && w in s.workers && s.workers[w].phase.Reclaiming? && Unmoved(s, w)
    ensures Inv(Step(s, Reclaim(w, reply)).value)
  {
    var doc := s.receipt.value.doc;
    assert WorkerOk(s, w) && DocumentOk(s, doc);
    OneMoreClaim(s.workers, s.documents[doc].claims, w);
    hide DocumentOk, WorkerOk;
    ClaimKeeps(s, w, s.receipt.value.(claim := w, lockedAt := Some(s.workers[w].now)), reply, s.nextDoc);
  }

  lemma OneMoreClaim(workers: map<nat, Worker>, claims: seq<nat>, w: nat)
    requires claims != [] && Spaced(workers, claims) && w in workers
    requires workers[w].now >= workers[Last(claims)].now + TAKEOVER_MS
    ensures Spaced(workers, claims + [w])
  {
    forall i | 0 <= i < |claims| ensures workers[w].now >= workers[claims[i]].now + TAKEOVER_MS {
      assert i < |claims| - 1 ==> workers[claims[|claims| - 1]].now >= workers[claims[i]].now + TAKEOVER_MS;
    }
  }

  lemma EndKeeps(s: State, fate: Fate)
    requires Inv(s) && s.receipt.Some? && fate != Live
    requires fate == Fate.Released ==> !Holds(s, s.receipt.value.claim)
    ensures Inv(Ended(s, fate))
  {
    var t := Ended(s, fate);
    forall d | d in t.documents ensures DocumentOk(t, d) {
      assert DocumentOk(s, d);
    }
    assert ClaimsKept(s.documents, t.documents);
    forall v | v in t.workers ensures WorkerOk(t, v) {
      assert WorkerOk(s, v);
    }
    hide DocumentOk, WorkerOk;
  }

  lemma ReleaseKeeps(s: State, w: nat)
    requires Inv(s) && Is(s, w, Releasing) && Fenced(s, w)
    ensures Inv(Step(s, Release(w)).value)
  {
    EndKeeps(s, Fate.Released);
    var ended := Ended(s, Fate.Released);
    assert WorkerOk(s, w);
    hide ReceiptOk, DocumentOk;
    PhaseKeeps(ended, w, Failed);
  }

  lemma RunKeepsInv(es: seq<Event>)
    requires Run(Step, INIT, es).Some?
    ensures Inv(Run(Step, INIT, es).value)
  {
    assert Inv(INIT);
    hide Step, Inv;
    AtEnds(Step, INIT, es);
    forall s, e | Inv(s) && Step(s, e).Some? ensures Inv(Step(s, e).value) {
      StepKeepsInv(s, e);
    }
    Always(Step, Inv, INIT, es, 0, |es|);
  }

  // ---------- theorems ----------

  /** Until it expires, a published receipt never changes again. */
  lemma {:induction false} PublishedIsAbsorbing(es: seq<Event>, n: nat, m: nat)
    requires Run(Step, INIT, es).Some? && n <= m <= |es|
    requires At(Step, INIT, es, n).receipt.Some? && At(Step, INIT, es, n).receipt.value.published
    requires Expire !in es[n..m]
    ensures At(Step, INIT, es, m).receipt == At(Step, INIT, es, n).receipt
    decreases m
  {
    hide Step;
    if n < m {
      assert es[n..m] == es[n..m - 1] + [es[m - 1]];
      PublishedIsAbsorbing(es, n, m - 1);
      StepAt(Step, INIT, es, m - 1);
      PublishedStays(At(Step, INIT, es, m - 1), es[m - 1]);
    }
  }

  lemma PublishedStays(s: State, e: Event)
    requires s.receipt.Some? && s.receipt.value.published && Step(s, e).Some? && e != Expire
    ensures Step(s, e).value.receipt == s.receipt
  {
  }

  /** `updateOne` of `mark_published` modifies the receipt, whether or not its answer arrives. */
  predicate Marks(s: State, e: Event)
  {
    e.Mark? && Is(s, e.w, Holding(true)) && Fenced(s, e.w)
  }

  /** Between two requests that mark the receipt of a key it has expired: at most one answers `suppressed: false`. */
  lemma OnePublisher(es: seq<Event>, i: nat, j: nat)
    requires Run(Step, INIT, es).Some? && i < j < |es|
    requires Marks(At(Step, INIT, es, i), es[i]) && Marks(At(Step, INIT, es, j), es[j])
    ensures Expire in es[i + 1..j]
  {
    StepAt(Step, INIT, es, i);
    if Expire !in es[i + 1..j] {
      PublishedIsAbsorbing(es, i + 1, j);
      assert false;
    }
  }

  /** Only a marking request answers `suppressed: false`. */
  lemma OnlyMarkersAnswer(es: seq<Event>, n: nat, w: nat)
    requires Run(Step, INIT, es).Some? && n < |es|
    requires !Is(At(Step, INIT, es, n), w, Published) && Is(At(Step, INIT, es, n + 1), w, Published)
    ensures es[n] == Mark(w, true) && Marks(At(Step, INIT, es, n), es[n])
  {
    StepAt(Step, INIT, es, n);
    var s := At(Step, INIT, es, n);
    hide Run, At;
    OnlyMarkingPublishes(s, es[n], w);
  }

  lemma OnlyMarkingPublishes(s: State, e: Event, w: nat)
    requires Step(s, e).Some? && !Is(s, w, Published) && Is(Step(s, e).value, w, Published)
    ensures e == Mark(w, true) && Marks(s, e)
  {
  }

  /** How a request can stop being the claimer: by its own doing, by expiry, or to a clock a minute ahead. */
  lemma ClaimIsLostOnlyLate(es: seq<Event>, n: nat, w: nat)
    requires Run(Step, INIT, es).Some? && n < |es|
    requires var s := At(Step, INIT, es, n); w in s.workers && Fenced(s, w)
    requires var t := At(Step, INIT, es, n + 1); w in t.workers && !Fenced(t, w)
    ensures var s := At(Step, INIT, es, n);
            || es[n] == Expire || es[n] == Release(w) || (es[n].Mark? && es[n].w == w)
            || (es[n].Reclaim? && es[n].w in s.workers && s.workers[es[n].w].now >= s.workers[w].now + TAKEOVER_MS)
  {
    Prefix(Step, INIT, es, n);
    RunKeepsInv(es[..n]);
    StepAt(Step, INIT, es, n);
    var s := At(Step, INIT, es, n);
    hide Run, At;
    ClaimLost(s, es[n], w);
  }

  lemma ClaimLost(s: State, e: Event, w: nat)
    requires Inv(s) && Step(s, e).Some? && w in s.workers && Fenced(s, w)
    requires w in Step(s, e).value.workers && !Fenced(Step(s, e).value, w)
    ensures || e == Expire || e == Release(w) || (e.Mark? && e.w == w)
            || (e.Reclaim? && e.w in s.workers && s.workers[e.w].now >= s.workers[w].now + TAKEOVER_MS)
  {
    if e.Reclaim? {
      assert WorkerOk(s, e.w);
    }
    hide ReceiptOk, DocumentOk, WorkerOk;
  }

  /**
   Two requests that both believe they hold the key: if they claimed the same document, their clocks are a minute
   apart in the order of their claims; otherwise the earlier document had expired, or a later claimer of it, a
   minute ahead of the earlier request, released it.
   */
  lemma OverlappingClaims(es: seq<Event>, a: nat, b: nat)
    requires Run(Step, INIT, es).Some?
    requires var s := Run(Step, INIT, es).value; a != b && Holds(s, a) && Holds(s, b)
    ensures var s := Run(Step, INIT, es).value;
            a in s.claimed && b in s.claimed && s.claimed[a] in s.documents && s.claimed[b] in s.documents
    ensures var s := Run(Step, INIT, es).value;
            var claims := s.documents[s.claimed[a]].claims;
            if s.claimed[a] == s.claimed[b] then
              exists i, j :: 0 <= i < |claims| && 0 <= j < |claims| && claims[i] == a && claims[j] == b &&
                if i < j then s.workers[b].now >= s.workers[a].now + TAKEOVER_MS
                else s.workers[a].now >= s.workers[b].now + TAKEOVER_MS
            else if s.claimed[a] < s.claimed[b] then
              Outlived(s, a)
            else
              Outlived(s, b)
  {
    RunKeepsInv(es);
    hide Run, Step;
    var s := Run(Step, INIT, es).value;
    assert WorkerOk(s, a) && WorkerOk(s, b);
    var (da, db) := (s.claimed[a], s.claimed[b]);
    assert DocumentOk(s, da) && DocumentOk(s, db);
    if da == db {
      var claims := s.documents[da].claims;
      var i :| 0 <= i < |claims| && claims[i] == a;
      var j :| 0 <= j < |claims| && claims[j] == b;
      assert i != j;
    } else if da < db {
      OlderIsOutlived(s, a);
    } else {
      OlderIsOutlived(s, b);
    }
  }

  /** The document `a` claimed is gone: expired, or released by a claimer a minute ahead of `a`. */
  ghost predicate Outlived(s: State, a: nat)
    requires a in s.claimed && s.claimed[a] in s.documents && a in s.workers
  {
    var h := s.documents[s.claimed[a]];
    || h.fate == Expired
    || (h.fate == Fate.Released &&
        exists v :: v in h.claims && v in s.workers && !Holds(s, v) && s.workers[v].now >= s.workers[a].now + TAKEOVER_MS)
  }

  lemma OlderIsOutlived(s: State, a: nat)
    requires Inv(s) && Holds(s, a) && a in s.claimed && s.claimed[a] + 1 < s.nextDoc
    requires s.claimed[a] in s.documents && a in s.documents[s.claimed[a]].claims
    ensures Outlived(s, a)
  {
    var h := s.documents[s.claimed[a]];
    assert DocumentOk(s, s.claimed[a]);
    if h.fate == Fate.Released {
      var i :| 0 <= i < |h.claims| && h.claims[i] == a;
      assert h.claims[i] != h.claims[|h.claims| - 1] && Last(h.claims) in h.claims;
    }
  }

  /**
   The second case is real, and there the clocks of the two say nothing: whatever they are, a third request can take
   over from the earlier claimer and release, and the other one then claims a new document at once.
   */
  lemma OverlapWithoutTakeover(a: nat, b: nat, c: nat, key: string, earlier: int, later: int) returns (es: seq<Event>)
    requires a != b && b != c && a != c
    ensures Run(Step, INIT, es).Some?
    ensures var s := Run(Step, INIT, es).value;
            Holds(s, a) && Holds(s, c) && s.workers[a].now == earlier && s.workers[c].now == later
  {
    hide Run, Step;
    var s;
    es, s := Start(Step, INIT);
    es, s := ClaimFresh(es, s, a, key, earlier);
    es, s := TakeOver(es, s, b, key, earlier + TAKEOVER_MS);
    es, s := GiveUp(es, s, b);
    es, s := ClaimFresh(es, s, c, key, later);
  }

  ghost predicate SameOthers(s: State, t: State, w: nat)
  {
    forall v :: v != w ==> (v in s.workers <==> v in t.workers) && (v in s.workers ==> t.workers[v] == s.workers[v])
  }

  lemma ClaimFresh(es: seq<Event>, s: State, w: nat, key: string, now: int) returns (es': seq<Event>, t: State)
    requires Run(Step, INIT, es) == Some(s) && w !in s.workers && s.receipt.None?
    ensures es' == es + [Request(w, key, now), Insert(w, true)]
    ensures Run(Step, INIT, es') == Some(t) && SameOthers(s, t, w)
    ensures w in t.workers && t.workers[w] == Worker(key, now, Holding(false))
    ensures Fenced(t, w) && t.receipt.value.lockedAt == Some(now)
  {
    hide Run;
    es', t := Extend(Step, INIT, es, Request(w, key, now));
    es', t := Extend(Step, INIT, es', Insert(w, true));
  }

  lemma TakeOver(es: seq<Event>, s: State, w: nat, key: string, now: int) returns (es': seq<Event>, t: State)
    requires Run(Step, INIT, es) == Some(s) && w !in s.workers
    requires s.receipt.Some? && !s.receipt.value.published && s.receipt.value.fingerprint == key
    requires s.receipt.value.lockedAt.Some? ==> now >= s.receipt.value.lockedAt.value + TAKEOVER_MS
    ensures es' == es + [Request(w, key, now), Insert(w, true), Find(w), Reclaim(w, true)]
    ensures Run(Step, INIT, es') == Some(t) && SameOthers(s, t, w)
    ensures w in t.workers && t.workers[w] == Worker(key, now, Holding(false)) && Fenced(t, w)
  {
    hide Run;
    es', t := Extend(Step, INIT, es, Request(w, key, now));
    es', t := Extend(Step, INIT, es', Insert(w, true));
    es', t := Extend(Step, INIT, es', Find(w));
    es', t := Extend(Step, INIT, es', Reclaim(w, true));
  }

  lemma GiveUp(es: seq<Event>, s: State, w: nat) returns (es': seq<Event>, t: State)
    requires Run(Step, INIT, es) == Some(s) && Holds(s, w) && Fenced(s, w)
    ensures Run(Step, INIT, es') == Some(t) && SameOthers(s, t, w) && t.receipt.None?
  {
    hide Run;
    es', t := Extend(Step, INIT, es, Throw(w));
    es', t := Extend(Step, INIT, es', Release(w));
  }

  /** What a request meets that reads its clock at `now`. */
  predicate Free(receipt: Option<Receipt>, fingerprint: string, now: int)
  {
    receipt.None? ||
    (receipt.value.fingerprint == fingerprint && !receipt.value.published &&
     (receipt.value.lockedAt.Some? ==> receipt.value.lockedAt.value <= now - 60_000))
  }

  /** How a request ends that is not disturbed and whose commands all succeed. */
  ghost predicate EndsWell(s: State, t: State, w: nat, fingerprint: string, now: int)
  {
    && SameOthers(s, t, w) && w in t.workers
    && if Free(s.receipt, fingerprint, now) then
         && t.workers[w].phase == Published && w in t.emitted
         && t.receipt.Some? && t.receipt.value.published && t.receipt.value.fingerprint == fingerprint
       else
         && t.receipt == s.receipt && t.emitted == s.emitted
         && t.workers[w].phase ==
              if s.receipt.value.fingerprint != fingerprint then Conflict
              else if s.receipt.value.published then Duplicate
              else Busy
  }

  /** In every reachable state, a request that nobody disturbs publishes its result if it may, and else changes nothing. */
  lemma UndisturbedRequest(es: seq<Event>, s: State, w: nat, fingerprint: string, now: int)
    returns (fs: seq<Event>, t: State)
    requires Run(Step, INIT, es) == Some(s) && w !in s.workers
    ensures es <= fs && Run(Step, INIT, fs) == Some(t) && forall i :: |es| <= i < |fs| ==> fs[i] != Expire && fs[i].w == w
    ensures EndsWell(s, t, w, fingerprint, now)
  {
    hide Run, Step;
    if s.receipt.None? {
      var fs1, s1 := ClaimFresh(es, s, w, fingerprint, now);
      fs, t := PublishHeld(fs1, s1, w);
    } else if Free(s.receipt, fingerprint, now) {
      var fs1, s1 := TakeOver(es, s, w, fingerprint, now);
      fs, t := PublishHeld(fs1, s1, w);
    } else {
      fs, t := TurnedAway(es, s, w, fingerprint, now);
    }
  }

  /**
   A claim whose answer is lost fails, and nobody will release it: it blocks the key for others of the same result until a
   minute after its clock, and no longer.
   */
  lemma LostClaimBlocksAMinute(v: nat, w: nat, fingerprint: string, claimedAt: int, now: int)
    returns (es: seq<Event>, t: State)
    requires v != w
    ensures Run(Step, INIT, es) == Some(t) && Is(t, v, Failed) && Insert(v, false) in es
    ensures Is(t, w, if now >= claimedAt + 60_000 then Published else Busy)
  {
    hide Run, Step;
    var s;
    es, s := LoseClaim(v, fingerprint, claimedAt);
    es, t := UndisturbedRequest(es, s, w, fingerprint, now);
  }

  lemma LoseClaim(v: nat, fingerprint: string, claimedAt: int) returns (es: seq<Event>, s: State)
    ensures Run(Step, INIT, es) == Some(s) && Is(s, v, Failed) && s.workers.Keys == {v} && Insert(v, false) in es
    ensures s.receipt == Some(Receipt(0, fingerprint, false, v, Some(claimedAt)))
  {
    hide Run;
    es, s := Start(Step, INIT);
    es, s := Extend(Step, INIT, es, Request(v, fingerprint, claimedAt));
    es, s := Extend(Step, INIT, es, Insert(v, false));
  }

  lemma PublishHeld(es: seq<Event>, s: State, w: nat) returns (es': seq<Event>, t: State)
    requires Run(Step, INIT, es) == Some(s) && Is(s, w, Holding(false)) && Fenced(s, w)
    ensures es' == es + [Emit(w), Mark(w, true)] && Run(Step, INIT, es') == Some(t) && SameOthers(s, t, w)
    ensures Is(t, w, Published) && w in t.emitted
    ensures t.receipt == Some(s.receipt.value.(published := true, lockedAt := None))
  {
    hide Run;
    es', t := Extend(Step, INIT, es, Emit(w));
    es', t := Extend(Step, INIT, es', Mark(w, true));
  }

  lemma TurnedAway(es: seq<Event>, s: State, w: nat, fingerprint: string, now: int) returns (es': seq<Event>, t: State)
    requires Run(Step, INIT, es) == Some(s) && w !in s.workers && !Free(s.receipt, fingerprint, now)
    ensures es' == es + [Request(w, fingerprint, now), Insert(w, true), Find(w)]
    ensures Run(Step, INIT, es') == Some(t) && EndsWell(s, t, w, fingerprint, now)
  {
    hide Run;
    es', t := Extend(Step, INIT, es, Request(w, fingerprint, now));
    es', t := Extend(Step, INIT, es', Insert(w, true));
    es', t := Extend(Step, INIT, es', Find(w));
  }

  /**
   Every 202 that this route gives for a claim comes after an emission of that result, identified by its fingerprint: its
   own emission, or for a suppressed duplicate that of some request for the same result.
   */
  lemma AnswersFollowAnEmission(es: seq<Event>, w: nat) returns (v: nat)
    requires Run(Step, INIT, es).Some?
    requires var s := Run(Step, INIT, es).value; Is(s, w, Published) || Is(s, w, Duplicate)
    ensures var s := Run(Step, INIT, es).value;
            && Emit(v) in es && v in s.workers && s.workers[v].fingerprint == s.workers[w].fingerprint
            && (Is(s, w, Published) ==> v == w)
  {
    RunKeepsInv(es);
    hide Run, Step;
    var s := Run(Step, INIT, es).value;
    assert WorkerOk(s, w);
    if Is(s, w, Published) {
      v := w;
    } else {
      v :| v in s.emitted && v in s.workers && s.workers[v].fingerprint == s.workers[w].fingerprint;
    }
    EmittedByEvent(es, v);
  }

  lemma {:induction false} EmittedByEvent(es: seq<Event>, v: nat)
    requires Run(Step, INIT, es).Some? && v in Run(Step, INIT, es).value.emitted
    ensures Emit(v) in es
    decreases |es|
  {
    assert es != [];
    var before := es[..|es| - 1];
    assert es == before + [es[|es| - 1]];
    if v in Run(Step, INIT, before).value.emitted {
      EmittedByEvent(before, v);
    }
  }

  // ---------- the repository ----------

  datatype Outcome = Claimed(claimId: nat) | InFlight | AlreadyPublished | IdempotencyConflict

  /** `PublicationResultRepository` over the document of one key; each method runs without interference. */
  class PublicationResultRepository {
    var receipt: Option<Receipt>
    var nextDoc: nat

    constructor ()
      ensures receipt == None
    {
      receipt, nextDoc := None, 0;
    }

    /** Whatever the receipt, a request gets the key exactly when it is free or its lock is a minute old. */
    method Claim(fingerprint: string, now: int, claimId: nat) returns (outcome: Outcome)
      modifies this
      ensures outcome.Claimed? <==>
                old(receipt).None? || (old(receipt).value.fingerprint == fingerprint && !old(receipt).value.published &&
                  (old(receipt).value.lockedAt.Some? ==> old(receipt).value.lockedAt.value + TAKEOVER_MS <= now))
      ensures outcome.Claimed? ==>
                (outcome.claimId == claimId && receipt.Some? &&
                 receipt.value == Receipt(if old(receipt).None? then old(nextDoc) else old(receipt).value.doc,
                                          fingerprint, false, claimId, Some(now)))
      ensures !outcome.Claimed? ==> receipt == old(receipt)
      ensures outcome.AlreadyPublished? <==>
                old(receipt).Some? && old(receipt).value.published && old(receipt).value.fingerprint == fingerprint
      ensures outcome.IdempotencyConflict? <==> old(receipt).Some? && old(receipt).value.fingerprint != fingerprint
    {
      if receipt.None? {
        receipt := Some(Receipt(nextDoc, fingerprint, false, claimId, Some(now)));
        nextDoc := nextDoc + 1;
        return Outcome.Claimed(claimId);
      }
      var existing := receipt.value;
      if existing.fingerprint != fingerprint {
        return IdempotencyConflict;
      }
      if existing.published {
        return AlreadyPublished;
      }
      var staleBefore := now - TAKEOVER_MS;
      if existing.lockedAt.Some? && existing.lockedAt.value > staleBefore {
        return InFlight;
      }
      receipt := Some(existing.(claim := claimId, lockedAt := Some(now)));
      return Outcome.Claimed(claimId);
    }

    predicate OwnedBy(fingerprint: string, claimId: nat)
      reads this
    {
      receipt.Some? && receipt.value.fingerprint == fingerprint && !receipt.value.published &&
      receipt.value.claim == claimId
    }

    method MarkPublished(fingerprint: string, claimId: nat) returns (modified: bool)
      modifies this`receipt
      ensures modified <==>
                && old(receipt).Some? && old(receipt).value.fingerprint == fingerprint
                && old(receipt).value.claim == claimId && !old(receipt).value.published
      ensures modified ==> receipt == Some(old(receipt).value.(published := true, lockedAt := None))
      ensures !modified ==> receipt == old(receipt)
    {
      modified := OwnedBy(fingerprint, claimId);
      if modified {
        receipt := Some(receipt.value.(published := true, lockedAt := None));
      }
    }

    method Release(fingerprint: string, claimId: nat) returns (deleted: bool)
      modifies this`receipt
      ensures deleted <==>
                && old(receipt).Some? && old(receipt).value.fingerprint == fingerprint
                && old(receipt).value.claim == claimId && !old(receipt).value.published
      ensures receipt == if deleted then None else old(receipt)
    {
      deleted := OwnedBy(fingerprint, claimId);
      if deleted {
        receipt := None;
      }
    }
  }
}
